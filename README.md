# computer_enhance in Dafny

A verified model of three parts of the `computer_enhance` course repository.

- **The 8086 decoder, interpreter and driver loop** (`part1_8086`).
  - `decode.rs` turns machine code into `Instruction` values. It covers:
    - the arithmetic register/memory forms;
    - the accumulator-immediate forms;
    - the conditional jumps and loops;
    - the immediate-to-operand group 0x80-0x83;
    - `mov` between registers and memory, `mov` immediate to register, and `mov` immediate to memory.
  - `lib.rs` holds the instruction enum, its assembly text, the operand types (modes, places, effective addresses), and `run`, which executes one instruction.
  - `exec.rs` holds:
    - the machine `State` (registers, a 0xFFFF-byte memory, program end, instruction pointer);
    - the register file with its split byte registers;
    - the fetch/advance/execute loop `all_instructions_and_print`.
- **The sim86 disassembler** (top-level `src`). It is a bit-level parser for `mov` register/memory and `mov` immediate-to-register. It prints each instruction as assembly text behind the `bits 16` header.
- **The haversine JSON reader** (`part2/src/json_parser.rs`). It is a hand-written parser for `{"pairs": [{"x0": …, "y0": …, "x1": …, "y1": …}, …]}`. Alongside it sits the text format that `generate_json.rs` writes, so that a writer/reader round trip can be stated.

## How the model is organised

| module | file | what it holds |
|---|---|---|
| `Basics` | `basics.dfy` | bytes, words, `i8`; decimal and `{:+}` text |
| `Cursor` | `cursor.dfy` | `advance`, `advance_by`, `mod_reg_rm` as methods on a byte sequence |
| `Operands` | `operands.dfy` | register codes, modes, places, effective addresses and their text |
| `Instructions` | `instructions.dfy` | the `Instruction` datatype, `target`, the assembly text |
| `Decoder` | `decoder.dfy` | `Decode` as a function, the decoder's methods proved against it |
| `Encoding` | `encoding.dfy` | an encoder, and the proof that decoding inverts it |
| `RegisterFile` | `registers.dfy` | the register file as values and as a class |
| `Machine` | `machine.dfy` | machine state as values and as a class |
| `Interpreter` | `interpreter.dfy` | `run` as `Step` on values, and as methods on the class |
| `Driver` | `driver.dfy` | the fetch/advance/execute loop |
| `Sim86` | `sim86_types.dfy` | the sim86 types and their `Display` text |
| `Sim86Parser` | `sim86_parser.dfy` | the bit-level parser |
| `Sim86Encoding` | `sim86_encoding.dfy` | an encoder, and parse-after-encode round trips |
| `Sim86Disassembler` | `sim86_disassembler.dfy` | `disassemble` and the listing-39 examples |
| `HaversineJson` | `haversine_json.dfy` | the JSON reader |
| `HaversineText` | `haversine_text.dfy` | the generator's text format and the round trip |

Three kinds of code take three shapes:

- **Pure code becomes functions with lemmas.** This covers decoding, text, the sim86 parser and the JSON combinators.
- **Code that mutates state becomes classes.**
  - `Registers` and `State` are classes whose methods state their new state through a `View()` function.
  - The interpreter's `Run` and the driver loop's `AllInstructions` are proved equal to the functions `Step` and `Execute`, one cycle at a time.
- **Loops over a cursor become methods with loop invariants.** Examples are `all_instructions_into`, `disassemble` and the element loop of `array`. Each is proved equal to a recursive specification function.

Behaviours of the code that the model keeps on purpose:

- **Decoder, 0x80-0x83.** The immediate of 0x83 (and of every 8-bit immediate) is zero-extended, never sign-extended (`Decoder.ImmediateNotSignExtended`).
- **Decoder, mode 0 with r/m 110.** It reads a 16-bit direct address.
- **Decoder, jumps and loops.** The offset is `byte as i8`.
- **Register file.** `SplitRegister` indexes byte registers by their code. So BL/BH live in the cell of CX, CL/CH in that of DX and DL/DH in that of BX (`RegisterFile.ByteAliasing`). The model takes the high half of a word to be bits 15-8. This is a convention of the model, not of the code: the code reads `SplitRegisterInner { h, l }` through a union without `repr(C)`, so its layout is unspecified (see the RegisterFile.Registers.View line under "## Left out").
- **Memory.** It has `u16::MAX` = 0xFFFF cells, and words are stored big-endian (`to_be_bytes` / `from_be_bytes`).
- **`run`, `add` with a memory source.** It stores the loaded word into the target instead of adding it (`Interpreter.AddFromMemoryOverwrites`).
- **`run`, `mov [bp + d8], reg`.** It writes the low byte of the source at BP and ignores the displacement (`Interpreter.StoreByteIgnoresDisplacement`).
- **`run`, jumps.** Only `je`/`jne` (0x74/0x75) run. Every other jump and every loop is `todo!()`, modelled as `Unimplemented`.
- **`run`, other `todo!()` forms.** The following are also `todo!()`, modelled as `Unimplemented`:
  - every byte operand of an arithmetic instruction or of a register/memory `mov`;
  - every arithmetic operation other than add/sub/cmp.

  `mov reg8, imm` and `mov byte [ea], imm` do run (`Interpreter.MovImmediateToRegister`, `Interpreter.ImmediateStoreCases`).
- **`run` panics.** The `u16` overflow of an address sum and out-of-bounds memory access are `Panicked`.
- **sim86, opcodes.** `parse_opcode` checks only the high nibble 1000 for `mov` reg/rm and then takes two more bits unchecked. So every byte 0x80-0x8F starts a `mov`.
- **sim86, r/m 110 in mode 0.** It is `[bp]` with no displacement. It is not a direct address.
- **sim86, immediates.** They print as unsigned decimal numbers.
- **JSON, `consume`.** A slice that is a proper prefix of the expected token passes the character comparison and then panics on the slice bounds. The empty slice passed to `number` is one such case.
- **JSON, text as characters.** The model reads the text as a sequence of characters, while the code slices it by UTF-8 byte offsets. Every `content` that `consume` matches is ASCII, and so is every character of a `number` lexeme (`-`, digits and `.`). So those offsets count characters. `whitespace` also skips non-ASCII White_Space characters (U+0085, U+00A0, U+2000-U+200A, U+3000 and the others `HaversineJson.IsWhitespace` lists), but it skips whole characters, and `str::find` returns a byte offset at a character boundary. So the split lands on the same character the model uses. The model is exact on any input.
- **JSON, `whitespace`.** On text that is whitespace only, it returns the text unchanged, because `find` fails and `unwrap_or_default` gives 0.

## Model

| member | source | states |
|---|---|---|
| Basics.Signed8 | part1_8086/src/decode.rs:51-65 | `byte as i8`: non-negative exactly below 0x80, and congruent to the byte mod 256 |
| Basics.SignedUnsignedInverse | part1_8086/src/decode.rs:51-65 | the `i8` reading of a byte and its inverse undo each other in both directions |
| Basics.DecimalText | part1_8086/src/lib.rs:348-361 | `{}` of a number is a non-empty run of digits with no leading zero |
| Basics.DecimalRoundTrip | part1_8086/src/lib.rs:348-361 | reading the decimal text back gives the number |
| Basics.DecimalTextInjective | part1_8086/src/lib.rs:348-361 | distinct numbers have distinct decimal text |
| Basics.SignedText | part1_8086/src/lib.rs:309-317 | `{:+}` is a sign character ('-' exactly for negatives) followed by the decimal text of the magnitude |
| Basics.SignedTextInjective | part1_8086/src/lib.rs:309-317 | distinct displacements print differently |
| Basics.HexText2 | part1_8086/src/lib.rs:330-332 | `{:2x}` is two characters: a space or the high hex digit, then the low hex digit |
| Cursor.LittleEndian | part1_8086/src/decode.rs:156-163 | the little-endian value of n bytes is below 256^n |
| Cursor.FoldIsLittleEndian | part1_8086/src/decode.rs:156-163 | the reversed shift-and-or fold of `advance_by` computes the little-endian value |
| Cursor.FoldShiftingInSnoc | part1_8086/src/decode.rs:156-163 | one more byte in the fold shifts the accumulated value by 8 bits and adds the byte |
| Cursor.Advance | part1_8086/src/decode.rs:147-154 | takes the first byte and leaves the rest; an empty cursor gives 0 and stays empty |
| Cursor.AdvanceBy | part1_8086/src/decode.rs:156-163 | splits off `width` bytes and returns their little-endian value, below 256^width |
| Cursor.ModRegRm | part1_8086/src/decode.rs:138-145 | the mode, reg and r/m fields of the next byte recompose to that byte (mode < 4); the cursor advances |
| Cursor.ModRegRmFields | part1_8086/src/decode.rs:138-145 | the three fields are exactly bits 7-6, 5-3 and 2-0 of the byte |
| Operands.ByteFromOctal | part1_8086/src/lib.rs:434-446 | `RegisterByte::from_octal` is defined exactly on 0-7 and yields the register with that code |
| Operands.WordFromOctal | part1_8086/src/lib.rs:452-464 | `RegisterWord::from_octal` is defined exactly on 0-7 and yields the register with that code |
| Operands.FromOctalInvertsCode | part1_8086/src/lib.rs:434-464 | decoding a register's code gives back the register |
| Operands.ModeFromDiscriminant | part1_8086/src/lib.rs:366-380 | `Mode::from_discriminant` is defined exactly on 0-3 and yields the mode with that discriminant |
| Operands.ModeFromDiscriminantInvertsCode | part1_8086/src/lib.rs:366-380 | decoding a mode's discriminant gives back the mode |
| Operands.RegisterPlace | part1_8086/src/lib.rs:400-406 | `Place::register` yields a word register exactly in word mode, with the given code |
| Operands.RmOperandConsumption | part1_8086/src/lib.rs:408-419 | register mode takes no displacement; a memory mode fails exactly when the displacement bytes are missing, and otherwise takes exactly the displacement width |
| Operands.DirectAddressTakesTwoBytes | part1_8086/src/lib.rs:408-419 | mode 0 with r/m 110 reads a 16-bit little-endian direct address |
| Operands.AddressOperand | part1_8086/src/lib.rs:408-419 | reads the displacement the mode calls for (0, 1 or 2 bytes, little-endian) into an effective address |
| Operands.ResolveRm | part1_8086/src/lib.rs:421-427 | the r/m operand and the bytes taken agree with the specification function `RmOperand` |
| Operands.EffectiveAddressText | part1_8086/src/lib.rs:348-361 | effective-address text is bracketed, and has no '+' exactly for a direct address |
| Operands.PlaceText | part1_8086/src/lib.rs:389-397 | an operand prints as at least two characters on one line, and starts with "[" exactly when it is a memory operand |
| Operands.RegisterNamesDistinct | part1_8086/src/lib.rs:389-397 | distinct register places print differently |
| Instructions.Target | part1_8086/src/lib.rs:68-78 | `target` is absent exactly for jumps, loops and unrecognized bytes; otherwise it is the instruction's target operand |
| Instructions.Text | part1_8086/src/lib.rs:281-335 | the `Display` of an instruction holds no line break, so each instruction is one line of the listing |
| Instructions.JumpMnemonicsDistinct | part1_8086/src/lib.rs:309-317 | the sixteen conditional-jump mnemonics are pairwise distinct |
| Instructions.LoopMnemonicsDistinct | part1_8086/src/lib.rs:314-317 | the four loop mnemonics are pairwise distinct |
| Instructions.NoSpaceInJumpMnemonic | part1_8086/src/lib.rs:309-317 | no jump mnemonic contains a space |
| Instructions.FirstSpaceAfterWord | part1_8086/src/lib.rs:309-317 | in a mnemonic followed by a space, the first space ends the mnemonic |
| Instructions.JumpTextInjective | part1_8086/src/lib.rs:309-317 | two jumps with the same text have the same opcode and offset |
| Instructions.TwoOperandText | part1_8086/src/lib.rs:284-318 | arithmetic and `mov` render as `<mnemonic> <target>, <source>`, and the mnemonic is the text before the first space |
| Decoder.AdvanceCount | part1_8086/src/decode.rs:147-154 | `advance` consumes one byte exactly when there is one |
| Decoder.ModeOf | part1_8086/src/decode.rs:138-145 | the mode of a mod-reg-r/m byte is its top two bits |
| Decoder.RmTarget | part1_8086/src/decode.rs:67-88 | the mod-reg-r/m byte and its displacement never take more bytes than there are |
| Decoder.RegMemOperands | part1_8086/src/decode.rs:126-136 | the operand pair of a register/memory form never takes more bytes than there are |
| Decoder.AfterOpcode | part1_8086/src/decode.rs:22-117 | the operands after an opcode never take more bytes than there are |
| Decoder.Decode | part1_8086/src/decode.rs:22-124 | a decoded instruction takes at least one byte and no more than there are |
| Decoder.TargetSource | part1_8086/src/decode.rs:126-136 | `target_source` returns the operands of `RegMemOperands`, with the d bit choosing which one is the target, and the rest of the cursor |
| Decoder.RmTargetOperand | part1_8086/src/decode.rs:67-88 | returns the reg field, the r/m operand and the rest of the cursor, as `RmTarget` specifies |
| Decoder.DecodeArithmeticRegMem | part1_8086/src/decode.rs:28-34 | the arithmetic reg/mem arm agrees with its specification |
| Decoder.DecodeArithmeticAccumulator | part1_8086/src/decode.rs:36-50 | the accumulator-immediate arm agrees with its specification |
| Decoder.DecodeRelative | part1_8086/src/decode.rs:51-65 | the jump and loop arms agree with their specification |
| Decoder.DecodeArithmeticImmediate | part1_8086/src/decode.rs:67-88 | the 0x80-0x83 arm agrees with its specification |
| Decoder.DecodeMovRegMem | part1_8086/src/decode.rs:90-96 | the `mov` reg/mem arm agrees with its specification |
| Decoder.DecodeMovImmediate | part1_8086/src/decode.rs:98-105 | the `mov` immediate-to-register arm agrees with its specification |
| Decoder.DecodeMovImmediateToMemory | part1_8086/src/decode.rs:106-117 | the C6/C7 arm agrees with its specification |
| Decoder.OperandsAfterOpcode | part1_8086/src/decode.rs:22-118 | dispatch on the opcode byte agrees with `AfterOpcode` |
| Decoder.SingleInstruction | part1_8086/src/decode.rs:22-124 | `single_instruction` returns the length and instruction of `Decode`, and the cursor after them |
| Decoder.Listing | part1_8086/src/decode.rs:12-20 | the text the loop appends is empty exactly for an empty stream; ListingStep and ListingEndsInNewline give its lines |
| Decoder.ListingRest | part1_8086/src/decode.rs:12-20 | a listing that exists decodes its first instruction and has a listing for the rest |
| Decoder.ListingStep | part1_8086/src/decode.rs:12-20 | a listing is the first instruction's text and a newline, then the listing of the rest |
| Decoder.ListingAdvance | part1_8086/src/decode.rs:12-20 | one loop step keeps "text so far + listing of the rest" equal to the whole output |
| Decoder.AllInstructionsInto | part1_8086/src/decode.rs:12-20 | the loop appends exactly the listing of the whole input to the output |
| Decoder.AllInstructions | part1_8086/src/decode.rs:6-10 | the disassembly is "bits 16", a newline, then the listing |
| Decoder.UnrecognizedLayout | part1_8086/src/decode.rs:118 | an unrecognized first byte decodes as a one-byte `Unrecognized` |
| Decoder.UnrecognizedExactly | part1_8086/src/decode.rs:22-118 | the result is `Unrecognized` exactly when no arm matches the first byte |
| Decoder.RegisterToRegisterLayout | part1_8086/src/decode.rs:28-34 | register-to-register arithmetic and `mov` take two bytes; the d bit picks whether reg or r/m is the target (lines 90-96 and 126-136 too) |
| Decoder.AccumulatorLayout | part1_8086/src/decode.rs:36-50 | AL/AX immediate forms take 1 + width bytes, fail exactly when short, and read the immediate little-endian |
| Decoder.MovImmediateLayout | part1_8086/src/decode.rs:98-105 | B0-BF: the w bit is bit 3, the register is the low three bits, and the immediate is little-endian |
| Decoder.ImmediateToOperandLayout | part1_8086/src/decode.rs:67-88 | 0x80-0x83 and C6/C7: the immediate follows the r/m operand and is one byte when sign-extension or byte mode is set (lines 106-117 too) |
| Decoder.ImmediateNotSignExtended | part1_8086/src/decode.rs:79-80 | `83 C0 FF` decodes with immediate 255, not 0xFFFF |
| Decoder.RelativeLayout | part1_8086/src/decode.rs:51-65 | jumps and loops take two bytes and read the offset as `i8` |
| Decoder.OutOfBytesOnlyWhenShort | part1_8086/src/decode.rs:22-124 | decoding runs out of bytes only for a recognized opcode that is not a jump or loop |
| Decoder.ListingEndsInNewline | part1_8086/src/decode.rs:12-20 | a non-empty listing ends in a newline |
| Encoding.LittleEndianBytes | part1_8086/src/decode.rs:156-163 | writes a value as 1 or 2 little-endian bytes that read back as the value |
| Encoding.ModRmByteFields | part1_8086/src/decode.rs:138-145 | a composed mod-reg-r/m byte splits back into its three fields |
| Encoding.RegisterPlaceOfCode | part1_8086/src/lib.rs:400-406 | a register is the place named by its code in its width |
| Encoding.RmTargetRoundTrip | part1_8086/src/decode.rs:67-88 | decoding an encoded mod-reg-r/m operand gives it back, with the number of bytes written |
| Encoding.RegMemRoundTrip | part1_8086/src/decode.rs:126-136 | `target_source` gives back the operand pair the encoder wrote |
| Encoding.ArithmeticRoundTrip | part1_8086/src/decode.rs:28-34 | an encoded add/sub/cmp (and the other reg/mem arithmetic) decodes to itself, whatever follows |
| Encoding.MovRoundTrip | part1_8086/src/decode.rs:90-96 | an encoded `mov` reg/mem decodes to itself |
| Encoding.AccumulatorRoundTrip | part1_8086/src/decode.rs:36-50 | an encoded accumulator-immediate instruction decodes to itself |
| Encoding.MovImmediateRoundTrip | part1_8086/src/decode.rs:98-105 | an encoded `mov` immediate-to-register decodes to itself |
| Encoding.ImmediateToOperandRoundTrip | part1_8086/src/decode.rs:67-88 | the r/m operand and immediate of an encoded 80-83/C6/C7 instruction decode back |
| Encoding.ArithmeticImmediateRoundTrip | part1_8086/src/decode.rs:67-88 | an encoded immediate-to-operand arithmetic instruction decodes to itself |
| Encoding.MovImmediateToMemoryRoundTrip | part1_8086/src/decode.rs:106-117 | an encoded `mov` immediate-to-memory decodes to itself |
| Encoding.EncodeDecode | part1_8086/src/decode.rs:22-124 | every encodable instruction decodes from its encoding, taking exactly the encoded bytes, whatever follows |
| Encoding.EncodeInjective | part1_8086/src/decode.rs:22-124 | distinct encodable instructions have distinct encodings |
| Encoding.TwoEncodingsOfAddAxCx | part1_8086/src/decode.rs:126-137 | the d bit gives one instruction two encodings: `01 C8` and `03 C1` both decode to `add ax, cx`, so decoding is not injective |
| Encoding.RmTargetEncodable | part1_8086/src/decode.rs:67-88 | a decoded r/m operand is a register of the requested width or a memory operand whose displacement fits the bytes it came from |
| Encoding.AfterOpcodeEncodable | part1_8086/src/decode.rs:22-124 | every arm of the opcode dispatch yields an instruction the encoder can write |
| Encoding.DecodedIsEncodable | part1_8086/src/decode.rs:22-124 | whatever `single_instruction` decodes is encodable, and decoding its encoding gives the same instruction back |
| RegisterFile.WordCell | part1_8086/src/exec.rs:167-197 | each word register lives in one of the four cells of its group |
| RegisterFile.ByteCell | part1_8086/src/exec.rs:199-228 | each byte register is a half of one of the four data cells |
| RegisterFile.ReadWord | part1_8086/src/exec.rs:167-182 | `Index<RegisterWord>` reads the cell `WordCell` names; no contract of its own, WordWriteThenRead states how it sees writes |
| RegisterFile.WriteWord | part1_8086/src/exec.rs:184-197 | `IndexMut<RegisterWord>` keeps the register file well formed; WordWriteThenRead states that the write reads back and touches nothing else |
| RegisterFile.ReadByte | part1_8086/src/exec.rs:199-214 | `Index<RegisterByte>` reads one half of a data cell; no contract of its own, ByteAliasing states which half of which word |
| RegisterFile.WriteByte | part1_8086/src/exec.rs:215-228 | `IndexMut<RegisterByte>` keeps the register file well formed; ByteWriteThenRead and ByteWriteSeenByWord state its effect |
| RegisterFile.WithHalf | part1_8086/src/exec.rs:92-106 | replacing a half changes that half and keeps the other |
| RegisterFile.WordWriteThenRead | part1_8086/src/exec.rs:167-197 | a word write is read back, leaves every other word register and both flags alone |
| RegisterFile.ByteWriteThenRead | part1_8086/src/exec.rs:199-228 | a byte write is read back, leaves every other byte register, the meta group and the flags alone |
| RegisterFile.ByteWriteSeenByWord | part1_8086/src/exec.rs:199-228 | a byte write changes exactly one half of the word register sharing its cell |
| RegisterFile.ByteAliasing | part1_8086/src/exec.rs:199-228 | AL/AH are the halves of AX, BL/BH of CX, CL/CH of DX and DL/DH of BX |
| RegisterFile.WordIsItsHalves | part1_8086/src/exec.rs:92-106 | a word is 256 × its high half + its low half |
| RegisterFile.FlagsText | part1_8086/src/exec.rs:151-157 | the flags text holds 'S' exactly when the sign flag is set and 'Z' exactly when the zero flag is, S first |
| RegisterFile.FlagsTextInjective | part1_8086/src/exec.rs:151-157 | the flags text determines both flags |
| RegisterFile.Registers.constructor | part1_8086/src/exec.rs:143-148 | `Registers::default()`: every cell 0 and both flags clear |
| RegisterFile.Registers.Word | part1_8086/src/exec.rs:167-182 | `Index<RegisterWord>` reads the word of the register's cell |
| RegisterFile.Registers.Byte | part1_8086/src/exec.rs:199-214 | `Index<RegisterByte>` reads the half of the register's cell |
| RegisterFile.Registers.SetWord | part1_8086/src/exec.rs:184-197 | `IndexMut<RegisterWord>` assignment: the new registers are `WriteWord` of the old |
| RegisterFile.Registers.SetByte | part1_8086/src/exec.rs:215-228 | `IndexMut<RegisterByte>` assignment: the new registers are `WriteByte` of the old; the meta group is untouched |
| RegisterFile.Registers.SetFlags | part1_8086/src/lib.rs:139-140 | sets both flags and changes nothing else |
| RegisterFile.Registers.FlagsString | part1_8086/src/exec.rs:151-157 | the object's flags text holds "S" exactly when the sign flag is set and "Z" exactly when the zero flag is |
| Machine.DefaultState | part1_8086/src/exec.rs:115-124 | the default machine is well formed: cleared registers and 0xFFFF zero bytes of memory |
| Machine.BigEndianWord | part1_8086/src/lib.rs:113-115 | `from_be_bytes`: the first cell is the high byte of the word and the next cell its low byte |
| Machine.Loaded | part1_8086/src/exec.rs:126-137 | loading copies the program to the bottom of memory and sets the program end to its length |
| Machine.StoreBigEndianWord | part1_8086/src/lib.rs:219-230 | a word store keeps the memory length |
| Machine.StoreThenLoad | part1_8086/src/lib.rs:201-230 | a word store writes the high byte then the low byte, touches no other cell, and a load reads the value back |
| Machine.State.constructor | part1_8086/src/exec.rs:115-124 | `State::default()` as an object: its view is `DefaultState` |
| Machine.State.LoadProgram | part1_8086/src/exec.rs:126-137 | copies the program into the memory array; the new state is `Loaded` of the old |
| Interpreter.Wrap16 | part1_8086/src/lib.rs:99-103 | `wrapping_add`/`wrapping_sub` give the `u16` congruent to the exact result |
| Interpreter.Step | part1_8086/src/lib.rs:85-278 | `run` keeps the state well formed and the program end fixed; only a jump moves the instruction pointer, and a jump changes nothing else |
| Interpreter.StepMovImmediate | part1_8086/src/lib.rs:88-92 | the `MovImmediate` arm keeps the state well formed; MovImmediateToRegister states its effect |
| Interpreter.StepArithmetic | part1_8086/src/lib.rs:93-141 | the `Arithmetic` arm keeps the state well formed; RegisterArithmetic and AddFromMemoryOverwrites state its effect |
| Interpreter.StepArithmeticImmediate | part1_8086/src/lib.rs:147-167 | the immediate arithmetic arm keeps the state well formed; ImmediateArithmetic states its effect |
| Interpreter.StepJump | part1_8086/src/lib.rs:168-191 | the `Jump` arm keeps the state well formed; ConditionalJump states its effect |
| Interpreter.StepMov | part1_8086/src/lib.rs:193-247 | the `Mov` arm keeps the state well formed; MovRegisterCopies and StoreThenLoadRegister state its effect |
| Interpreter.StepStoreRegister | part1_8086/src/lib.rs:220-241 | a store of a word register to memory keeps the state well formed and changes only memory; StoreRegisterCases states its effect, its panics and its `todo!()` forms for every address |
| Interpreter.StepMovImmediateToMemory | part1_8086/src/lib.rs:248-275 | the `MovImmediateToMemory` arm keeps the state well formed and changes only memory; ImmediateStoreCases states its effect, its panics and its `todo!()` forms for every target |
| Interpreter.SetWordAndFlags | part1_8086/src/lib.rs:125-141 | writes the result (unless the operation is `cmp`) and sets Z and S from it |
| Interpreter.StoreWord | part1_8086/src/lib.rs:219-230 | writes a big-endian word into the memory array: the new memory is `StoreBigEndianWord` of the old |
| Interpreter.LoadWordAt | part1_8086/src/lib.rs:104-124 | reads the big-endian word at the effective address, as `LoadWord` specifies |
| Interpreter.RunMovImmediate | part1_8086/src/lib.rs:88-92 | the `MovImmediate` arm on the object: the new state is `StepMovImmediate` of the old |
| Interpreter.RunArithmetic | part1_8086/src/lib.rs:93-141 | the `Arithmetic` arm on the object: the new state is `StepArithmetic` of the old |
| Interpreter.RunArithmeticImmediate | part1_8086/src/lib.rs:147-167 | the immediate arithmetic arm on the object: the new state is `StepArithmeticImmediate` of the old |
| Interpreter.RunJump | part1_8086/src/lib.rs:168-191 | the `Jump` arm on the object: the new state is `StepJump` of the old |
| Interpreter.RunMov | part1_8086/src/lib.rs:193-247 | the `Mov` arm on the object: the new state is `StepMov` of the old |
| Interpreter.RunMovImmediateToMemory | part1_8086/src/lib.rs:248-275 | the `MovImmediateToMemory` arm on the object: the new state is `StepMovImmediateToMemory` of the old |
| Interpreter.Run | part1_8086/src/lib.rs:85-278 | `run` on the object: the new state is `Step` of the old |
| Interpreter.RegisterArithmetic | part1_8086/src/lib.rs:99-141 | add/sub/cmp on word registers: wrap-around result written (not for cmp), the source and other registers kept, Z and S from the result |
| Interpreter.ImmediateArithmetic | part1_8086/src/lib.rs:147-167 | add/sub/cmp of an immediate to a word register behave the same way |
| Interpreter.AddFromMemoryOverwrites | part1_8086/src/lib.rs:104-124 | `add reg, [ea]` with r/m 110 (`[disp]`) or 010 (`[bp + si]`) stores the loaded big-endian word into the register, sets Z and S from it, and keeps the other registers, memory and IP; it panics exactly when BP + SI overflows `u16` or the word's second byte lies past the end of memory; every other r/m is `todo!()` |
| Interpreter.MovImmediateToRegister | part1_8086/src/lib.rs:88-92 | `mov reg, imm` writes the register (a byte register gets the low byte), and keeps memory and flags |
| Interpreter.MovRegisterCopies | part1_8086/src/lib.rs:198-200 | `mov reg, reg` copies the source and changes nothing else |
| Interpreter.ConditionalJump | part1_8086/src/lib.rs:168-191 | only `je`/`jne` run; a jump not taken leaves the state alone; a taken jump adds the offset to IP; it panics only for offset -128 (negating it overflows `i8`) or when IP is below the offset's magnitude (the `usize` subtraction underflows); an IP pushed past 0xFFFF is not caught here; the loop then halts, because `program_end` is at most 65535 for every loaded program (`Machine.Loaded`) and the IP is past it. The check in `Driver.Cycle` against a fetch past memory is defensive: only a state with a larger `programEnd` could reach it |
| Interpreter.StoreThenLoadRegister | part1_8086/src/lib.rs:201-230 | `mov [bp + si], r1` then `mov r2, [bp + si]` copies r1 to r2 through memory |
| Interpreter.StoreByteIgnoresDisplacement | part1_8086/src/lib.rs:231-241 | `mov [bp + d8], reg` writes the low byte of the source at BP, whatever the displacement |
| Interpreter.ImmediateStoreWritesWord | part1_8086/src/lib.rs:248-275 | `mov [disp], imm` writes the immediate as a big-endian word, in byte and word mode alike |
| Interpreter.StoreRegisterCases | part1_8086/src/lib.rs:220-241 | `mov [ea], reg` for every address. `[bp + si]` stores the big-endian word at BP + SI, and panics exactly when the sum overflows `u16` or the word runs past memory. `[bp + d8]` stores the low byte at BP, and panics exactly when BP is past memory. Every other form is `todo!()`. On success only memory changes. |
| Interpreter.ImmediateStoreCases | part1_8086/src/lib.rs:248-275 | `mov [ea], imm` for every target. `[disp]`, `[bp + d8]` and `[bx + d8]` get the immediate as a big-endian word, in byte mode too. It panics exactly when the BP/BX sum overflows `u16` or the word runs past memory. Register targets and other address forms are `todo!()`. On success only memory changes. |
| Interpreter.UnimplementedForms | part1_8086/src/lib.rs:142-146 | accumulator immediates, loops, unrecognized bytes, other operations and byte operands all reach `todo!()` (lines 192 and 276 too) |
| Driver.DecodeAtIsDecodeOfSuffix | part1_8086/src/exec.rs:10-11 | decoding at IP is decoding the memory suffix from IP |
| Driver.DecodeAt | part1_8086/src/exec.rs:10-11 | a decoding at IP takes at least one byte, and no more bytes than lie between IP and the end of memory |
| Driver.TraceProbe | part1_8086/src/exec.rs:28-79 | the trace's reads never stop the loop for a register target; for `[disp]` and `[bp + si]` they succeed or panic exactly when `run`'s load from that address does |
| Driver.Cycle | part1_8086/src/exec.rs:9-89 | a completed cycle keeps the state well formed and the program end fixed |
| Driver.Execute | part1_8086/src/exec.rs:8-90 | a loop that halts leaves IP at or past the program end; the program end never changes |
| Driver.RunCycle | part1_8086/src/exec.rs:9-89 | one iteration on the object: decode at IP, advance IP, run; the new state is `Cycle` of the old |
| Driver.AllInstructions | part1_8086/src/exec.rs:8-90 | the loop on the object ends in the state `Execute` predicts |
| Driver.ExecuteOneCycle | part1_8086/src/exec.rs:9-89 | a loop that ends normally survives its next cycle and ends in the same state after it |
| Driver.ExecuteStops | part1_8086/src/exec.rs:9 | the loop stops at once when IP is at or past the program end |
| Driver.CycleRunsDecoded | part1_8086/src/exec.rs:10-22 | a cycle runs the decoded instruction on the state with IP advanced past it |
| Driver.CycleAdvancesPastInstruction | part1_8086/src/exec.rs:10-13 | after a non-jump, IP has moved by exactly the decoded length |
| Driver.JzExample | part1_8086/src/exec.rs:9-89 | `74 02` at address 0 moves IP to 4 when Z is set and to 2 otherwise, and changes nothing else |
| Driver.MovImmediateWordCycle | part1_8086/src/exec.rs:9-89 | a B8-BF cycle writes the little-endian immediate to the register and advances IP by 3 |
| Driver.AddAxCxCycle | part1_8086/src/exec.rs:9-89 | `01 C8` sets AX to the wrapped sum of AX and CX, with Z and S from it |
| Driver.AddProgramRuns | part1_8086/src/exec.rs:8-90 | `mov ax, 5; mov cx, 2; add ax, cx` halts after three cycles with AX = 7, CX = 2 and both flags clear |
| Driver.AddExample | part1_8086/src/exec.rs:115-137 | the same, starting from a freshly loaded default machine |
| Sim86.ByteRegister | src/lib.rs:164-176 | `Register::byte` yields a byte register, and BH for 7 and above |
| Sim86.WordRegister | src/lib.rs:177-189 | `Register::word` yields a word register, and DI for 7 and above |
| Sim86.RegisterReadersInvertCode | src/lib.rs:164-189 | the code of a register reads back as that register, and the readers give back every 3-bit code |
| Sim86.RegisterTextInjective | src/lib.rs:190-212 | distinct registers print differently (each name is two letters) |
| Sim86.RegisterText | src/lib.rs:190-212 | a register prints as two characters; RegisterTextInjective makes the name unique |
| Sim86.AddressTextInjective | src/lib.rs:129-143 | distinct base addresses print differently |
| Sim86.AddressText | src/lib.rs:129-143 | a base prints as one register (two characters) or two joined by " + " (seven characters) |
| Sim86.ImmediateText | src/lib.rs:85-92 | immediates print as digits only (unsigned decimal) |
| Sim86.LocationText | src/lib.rs:54-64 | a location prints bracketed exactly when it is an address |
| Sim86.SourceText | src/lib.rs:71-78 | a source prints non-empty and on one line, and starts with a digit exactly when it is an immediate |
| Sim86.InstructionText | src/lib.rs:39-46 | an instruction prints on one line |
| Sim86.OperationText | src/lib.rs:101-109 | every implemented operation prints as `mov` |
| Sim86Parser.ValueOfBitsOf | src/parser.rs:98-108 | the value of the n-bit form of v is v |
| Sim86Parser.BitsOfValue | src/parser.rs:98-108 | the n-bit form of a bit string's value is that bit string |
| Sim86Parser.Take | src/parser.rs:98-108 | taking n bits succeeds exactly when n bits are there; they are the n-bit form of the value taken |
| Sim86Parser.TakeBitsOf | src/parser.rs:98-108 | taking n bits from the n-bit form of v gives v and the rest |
| Sim86Parser.TakeFlag | src/parser.rs:15-32 | a flag bit is taken exactly when a bit is there |
| Sim86Parser.ParseReg | src/parser.rs:110-117 | `parse_reg` succeeds exactly on three bits; the register has the w bit's width and the bits as its code |
| Sim86Parser.ParseAddr | src/parser.rs:82-96 | `parse_addr` succeeds exactly on three bits, which are the address's code |
| Sim86Parser.ParseImmediate | src/parser.rs:46-56 | `parse_immediate` takes exactly 8 or 16 bits (w bit), which are the immediate's bits |
| Sim86Parser.ParseEaddr | src/parser.rs:70-80 | mode 0 is a bare base taking nothing; modes 1 and 2 take an 8- or 16-bit offset |
| Sim86Parser.ParseRm | src/parser.rs:58-68 | `parse_rm` yields a register exactly in mode 3, of the w bit's width; mode 0 is a bare address |
| Sim86Parser.ParseOpcode | src/parser.rs:119-136 | fails exactly on short input; 1010 and 1100 are `todo!()`; 1000 is mov reg/rm (two bits unchecked), 1011 mov immediate-to-register, anything else Unimplemented |
| Sim86Parser.ParseMovRegRm | src/parser.rs:15-26 | a parsed mov reg/rm took 10, 18 or 26 bits after the opcode |
| Sim86Parser.ParseMovImmediateReg | src/parser.rs:27-32 | a parsed mov immediate took 12 or 20 bits after the opcode |
| Sim86Parser.ParseInstruction | src/parser.rs:11-44 | a parsed instruction is one of the two implemented movs and consumes input |
| Sim86Encoding.ParseRegRoundTrip | src/parser.rs:110-117 | `parse_reg` reads back an encoded register |
| Sim86Encoding.ParseImmediateRoundTrip | src/parser.rs:46-56 | `parse_immediate` reads back an encoded immediate |
| Sim86Encoding.ParseRmRoundTrip | src/parser.rs:58-68 | `parse_rm` reads back an encoded location |
| Sim86Encoding.ParseAddrRoundTrip | src/parser.rs:82-96 | `parse_addr` reads back an encoded base address |
| Sim86Encoding.ParseMovRegRmRoundTrip | src/parser.rs:15-26 | an encoded mov reg/rm parses back to itself |
| Sim86Encoding.ParseMovImmediateRegRoundTrip | src/parser.rs:27-32 | an encoded mov immediate-to-register parses back to itself |
| Sim86Encoding.EncodeParse | src/parser.rs:11-44 | every encodable instruction parses back from its bits, whatever follows |
| Sim86Encoding.ParsedIsEncodable | src/parser.rs:11-44 | everything the parser yields is encodable, so the two round trips cover the whole parser |
| Sim86Encoding.WholeBytesConsumed | src/parser.rs:11-44 | a parsed instruction takes 2, 3 or 4 whole bytes |
| Sim86Encoding.EncodeBytes | src/parser.rs:11-44 | an instruction is 2 to 4 bytes |
| Sim86Encoding.EncodeBytesBits | src/parser.rs:11-44 | the MSB-first bits of the encoded bytes are the encoded bit string |
| Sim86Disassembler.ListingRoundTrip | src/lib.rs:9-21 | the bits of an encoded program disassemble to its listing |
| Sim86Disassembler.Lines | src/lib.rs:13-20 | the lines read off the input are empty exactly for an empty input, and otherwise end in a newline |
| Sim86Disassembler.Listing | src/lib.rs:13-20 | the listing of one or more instructions ends in a newline |
| Sim86Disassembler.ListingLines | src/lib.rs:13-20 | the listing has exactly one line break per instruction |
| Sim86Disassembler.DisassembleRoundTrip | src/lib.rs:9-21 | the same for the program's bytes |
| Sim86Disassembler.LinesStep | src/lib.rs:9-21 | an unparsable instruction stops the listing; otherwise the listing is its text, a newline, then the rest |
| Sim86Disassembler.Disassemble | src/lib.rs:9-21 | `disassemble` succeeds exactly when every instruction parses, giving "bits 16", a blank line, then the lines |
| Sim86Disassembler.ByteImmediateExample | src/tests/listing39.rs:3-13 | `B1 0C B5 F4` is "mov cl, 12" and "mov ch, 244" |
| Sim86Disassembler.WordImmediateExample | src/tests/listing39.rs:15-25 | `B9 0C 00 B9 F4 FF` is "mov cx, 12" and "mov cx, 65524" |
| Sim86Disassembler.SourceAddressExample | src/tests/listing39.rs:26-37 | `8A 00 8B 1B 8B 56 00` is "mov al, [bx + si]", "mov bx, [bp + di]", "mov dx, [bp + 0]" |
| Sim86Disassembler.WordOffsetExample | src/tests/listing39.rs:48-57 | `8A 80 87 13` is "mov al, [bx + si + 4999]" |
| HaversineJson.Find | part2/src/json_parser.rs:105 | `find` yields a position inside the text |
| HaversineJson.IsWhitespace | part2/src/json_parser.rs:127 | `char::is_whitespace`: no whitespace character is a digit, ".", "-" or a token the parser matches (`{ } [ ] : , "`) |
| HaversineJson.FindCases | part2/src/json_parser.rs:105 | that position is the first one satisfying the predicate, and none is found only when none satisfies it |
| HaversineJson.ZipAllAgrees | part2/src/json_parser.rs:119 | `zip(..).all(==)` holds exactly when both agree at every position both have |
| HaversineJson.Consume | part2/src/json_parser.rs:118-124 | a consumed slice is the content followed by the result |
| HaversineJson.ConsumeCases | part2/src/json_parser.rs:118-124 | Ok exactly when the slice starts with the content; a panic exactly when the slice is a proper prefix of the content; otherwise the error message |
| HaversineJson.Whitespace | part2/src/json_parser.rs:126-130 | the result is a suffix of the input |
| HaversineJson.WhitespaceCases | part2/src/json_parser.rs:126-130 | only whitespace is dropped, the result starts with non-whitespace unless unchanged, and it is unchanged exactly for empty, non-whitespace-led or all-whitespace text |
| HaversineJson.WhitespaceIdempotent | part2/src/json_parser.rs:126-130 | skipping whitespace twice is skipping it once |
| HaversineJson.Lexeme | part2/src/json_parser.rs:105-115 | a number's text is a non-empty prefix of the slice, followed by the rest, and the number keeps the sign read before it |
| HaversineJson.LexemeCases | part2/src/json_parser.rs:105-115 | the lexeme is a float lexeme followed by a non-numeric character; "Number never ends" exactly when the text is all digits and dots |
| HaversineJson.ParseNumber | part2/src/json_parser.rs:95-116 | the number's text (sign and lexeme) is a prefix of the slice, and something follows it |
| HaversineJson.NumberCases | part2/src/json_parser.rs:95-116 | `number` panics exactly on empty text, and is negative exactly when the text starts with '-' |
| HaversineJson.ParseField | part2/src/json_parser.rs:54-58 | a field leaves a strictly shorter suffix |
| HaversineJson.ParseComma | part2/src/json_parser.rs:59-61 | a comma leaves a strictly shorter suffix |
| HaversineJson.ParseKeys | part2/src/json_parser.rs:54-85 | the fields, one per key, leave a strictly shorter suffix and one number per key |
| HaversineJson.ParseKeysNext | part2/src/json_parser.rs:54-85 | a field, a comma and the remaining fields make the whole field list |
| HaversineJson.ParseFields | part2/src/json_parser.rs:54-85 | the four coordinate fields leave a strictly shorter suffix |
| HaversineJson.ParsePair | part2/src/json_parser.rs:46-93 | `pair` leaves a strictly shorter suffix |
| HaversineJson.ParsePairOk | part2/src/json_parser.rs:46-93 | "{", the four fields and "}" make a pair of the four numbers in order |
| HaversineJson.ElementTurn | part2/src/json_parser.rs:28-39 | one element of the array loop leaves a suffix, strictly shorter when a comma follows |
| HaversineJson.Elements | part2/src/json_parser.rs:28-39 | the elements of a successful array are at least one pair, and leave a suffix |
| HaversineJson.ElementsMore | part2/src/json_parser.rs:28-39 | a pair followed by a comma is prepended to the elements after it |
| HaversineJson.ElementsLast | part2/src/json_parser.rs:28-39 | a pair without a comma after it is the last element |
| HaversineJson.ParseArray | part2/src/json_parser.rs:25-44 | a successful array holds at least one pair and leaves a suffix |
| HaversineJson.ParseArraySteps | part2/src/json_parser.rs:25-44 | `array` fails as "[" fails, then as the elements fail, then as "]" fails, and otherwise yields the elements |
| HaversineJson.ParseArrayOk | part2/src/json_parser.rs:25-44 | "[", the elements and "]" make the array |
| HaversineJson.ReadElement | part2/src/json_parser.rs:29-38 | one loop iteration agrees with `Elements`: errors and panics propagate, a comma continues, no comma ends |
| HaversineJson.ArrayElements | part2/src/json_parser.rs:28-39 | the loop appends exactly the parsed elements to the vector, and returns what `Elements` leads to |
| HaversineJson.Array | part2/src/json_parser.rs:25-44 | `array` pushes exactly the pairs of `ParseArray` and returns the rest it specifies |
| HaversineJson.Header | part2/src/json_parser.rs:6-15 | the document header leaves a suffix |
| HaversineJson.HeaderOk | part2/src/json_parser.rs:6-15 | "{", "\"pairs\"" and ":", each after whitespace, make the header |
| HaversineJson.DocumentHeaderFails | part2/src/json_parser.rs:6-15 | a header failure is the document's failure |
| HaversineJson.DocumentArrayFails | part2/src/json_parser.rs:17-18 | an array failure is the document's failure |
| HaversineJson.DocumentClose | part2/src/json_parser.rs:18-22 | after the array, "}" gives the pairs, otherwise its failure |
| HaversineJson.Document | part2/src/json_parser.rs:3-23 | no contract of its own: DocumentHeaderFails, DocumentArrayFails and DocumentClose state it step by step |
| HaversineJson.DocumentHasPairs | part2/src/json_parser.rs:3-23 | a document that is read holds at least one pair |
| HaversineJson.ParseHaversinePairs | part2/src/json_parser.rs:3-23 | `parse_haversine_pairs` returns exactly `Document` of its input |
| HaversineText.NumberThen | part2/src/bin/generate_json.rs:31-34 | a written number reads back, given a non-numeric character after it |
| HaversineText.FieldThenParses | part2/src/bin/generate_json.rs:31-34 | a written `"key": number` reads back |
| HaversineText.KeysThenParses | part2/src/bin/generate_json.rs:31-34 | any non-empty written field list reads back, number for number |
| HaversineText.PairThenParses | part2/src/bin/generate_json.rs:31-34 | a written pair reads back |
| HaversineText.ItemsThenParses | part2/src/bin/generate_json.rs:30-46 | a written list of pairs, comma-separated and one per line, reads back as the same list |
| HaversineText.HeaderThenParses | part2/src/bin/generate_json.rs:29 | the written header `{ "pairs": ` is read up to the "[" |
| HaversineText.ArrayThenParses | part2/src/bin/generate_json.rs:29-47 | "[", the items and "]" read back as the items |
| HaversineText.DocumentRoundTrip | part2/src/bin/generate_json.rs:29-47 | any non-empty list of pairs the generator writes is read back as exactly that list |

## Left out

- File and process I/O are left out. This covers `read_listing`, the file read in `load_program` (`LoadProgram` takes the bytes), the binaries' `main`, the nasm reassembly used by the sim86 tests, and reading the JSON file. Each such operation takes its input as a value.
- Printing is left out: the per-instruction trace of `all_instructions_and_print`, `Registers::print`, and the `println!` in `parse_opcode`. The trace's memory reads are kept, because they can panic or hit `todo!()` (`Driver.TraceProbe`).
- The profilers, timers, the haversine distance computation, the random generator and the rest of `part2`/`part3` are not part of this model.
- HaversineJson.ParseNumber: yields the sign and the lexeme. It does not convert them to `f64`, since floating point is out of scope. "Rust accepts the lexeme" is modelled as at least one digit and at most one dot.
- HaversineJson.ParseKeys: models the four copies of the field code in `pair` as one recursion over the keys `"x0"`, `"y0"`, `"x1"`, `"y1"`, with whitespace and commas between them.
- Driver.Execute: the loop has no bound in the code. The model runs it for a given number of iterations (`fuel`) and reports `OutOfFuel` when they run out.
- Panics are modelled as values (`Panicked`, `Panic`, `OutOfBytes`), not as process aborts. Debug-build overflow panics are modelled where they guard an address (`u16` sums). The instruction pointer is an unbounded `nat` that `Cycle` checks against memory.
- Sim86Disassembler.Disassemble: the sim86 `Instruction` has `_address` and `_size` fields, which are never read, and the model drops them. `disassemble` unwraps a parse failure, which is a panic; the model gives `None` instead.
- RegisterFile.Registers.View: `SplitRegister` is a `union` read through `transmute`. The model keeps one 16-bit cell per register with the high byte as bits 15-8, and does not model the host's byte order.
- Sim86Parser.ParseInstruction: the `todo!()` arms are a `Todo` result, not a panic. They are nibbles 1010 and 1100, and every opcode that `parse_opcode` marks unimplemented (src/parser.rs:34).
