/** Decoded 8086 instructions: one variant per encoding class, carrying just
    the operands that class encodes, and their assembly text. */
module Instructions {
  import opened Basics
  import opened Operands

  /** `op` is the 3-bit operation selector (an index into `Math`); a jump or
      loop keeps its whole opcode byte as `marker`. */
  datatype Instruction =
    | Arithmetic(op: Octal, target: Place, source: Place)
    | ArithmeticImmediate(op: Octal, target: Place, immediate: u16)
    | ArithmeticImmediateToMemory(wordMode: bool, op: Octal, target: Place, immediate: u16)
    | Jump(marker: u8, offset: i8)
    | Loop(marker: u8, offset: i8)
    | Mov(target: Place, source: Place)
    | MovImmediate(target: Place, immediate: u16)
    | MovImmediateToMemory(wordMode: bool, target: Place, immediate: u16)
    | Unrecognized(byte: u8)

  /** `Instruction::target`: the written operand of the six operand-carrying
      variants; jumps, loops and unrecognized bytes have none. */
  function Target(i: Instruction): (r: Option<Place>)
    ensures r.None? <==> (i.Jump? || i.Loop? || i.Unrecognized?)
    ensures r.Some? ==> r.value == i.target
  {
    match i
    case Jump(_, _) => None
    case Loop(_, _) => None
    case Unrecognized(_) => None
    case _ => Some(i.target)
  }

  const Math: seq<string> := ["add", "or", "adc", "sbb", "and", "sub", "xor", "cmp"]
  const JumpKinds: seq<string> := ["o", "b", "z", "be", "s", "p", "l", "le"]
  const LoopKinds: seq<string> := ["loopnz", "loopz", "loop", "jcxz"]

  /** A conditional jump's mnemonic: bits 3-1 of the opcode select the
      condition and bit 0 negates it. */
  function JumpMnemonic(marker: u8): string
  {
    "j" + (if marker % 2 == 1 then "n" else "") + JumpKinds[marker / 2 % 8]
  }

  function LoopMnemonic(marker: u8): string
  {
    LoopKinds[marker % 4]
  }

  function SizeText(wordMode: bool): string { if wordMode then "word" else "byte" }

  /** The mnemonics and size words hold no line break. */
  lemma WordsOnOneLine(op: Octal, marker: u8, wordMode: bool)
    ensures '\n' !in Math[op] && '\n' !in JumpMnemonic(marker) && '\n' !in LoopMnemonic(marker)
    ensures '\n' !in SizeText(wordMode)
  {
    assert forall w | w in Math :: '\n' !in w;
    assert forall w | w in JumpKinds :: '\n' !in w;
    assert forall w | w in LoopKinds :: '\n' !in w;
    assert Math[op] in Math && JumpKinds[marker / 2 % 8] in JumpKinds && LoopKinds[marker % 4] in LoopKinds;
  }

  lemma UnrecognizedOnOneLine(byte: u8)
    ensures '\n' !in "\U{1B}[1m\U{1B}[31m" + HexText2(byte) + "\U{1B}[0m unrecognized"
  {
    NumbersOnOneLine(0, 0, byte);
  }

  /** The `Display` of an instruction (one line of the disassembly, without
      its newline). */
  function Text(i: Instruction): (s: string)
    ensures '\n' !in s
  {
    match i
    case Arithmetic(op, target, source) =>
      WordsOnOneLine(op, 0, false);
      Math[op] + " " + PlaceText(target) + ", " + PlaceText(source)
    case ArithmeticImmediate(op, target, immediate) =>
      WordsOnOneLine(op, 0, false);
      NumbersOnOneLine(immediate, 0, 0);
      Math[op] + " " + PlaceText(target) + ", " + DecimalText(immediate)
    case ArithmeticImmediateToMemory(wordMode, op, target, immediate) =>
      WordsOnOneLine(op, 0, wordMode);
      NumbersOnOneLine(immediate, 0, 0);
      Math[op] + " " + SizeText(wordMode) + " " + PlaceText(target) + ", " + DecimalText(immediate)
    case Jump(marker, offset) =>
      WordsOnOneLine(0, marker, false);
      NumbersOnOneLine(0, offset, 0);
      JumpMnemonic(marker) + " $+2" + SignedText(offset)
    case Loop(marker, offset) =>
      WordsOnOneLine(0, marker, false);
      NumbersOnOneLine(0, offset, 0);
      LoopMnemonic(marker) + " $+2" + SignedText(offset)
    case Mov(target, source) => "mov " + PlaceText(target) + ", " + PlaceText(source)
    case MovImmediate(target, immediate) =>
      NumbersOnOneLine(immediate, 0, 0);
      "mov " + PlaceText(target) + ", " + DecimalText(immediate)
    case MovImmediateToMemory(wordMode, target, immediate) =>
      WordsOnOneLine(0, 0, wordMode);
      NumbersOnOneLine(immediate, 0, 0);
      "mov " + PlaceText(target) + ", " + SizeText(wordMode) + " " + DecimalText(immediate)
    case Unrecognized(byte) =>
      UnrecognizedOnOneLine(byte);
      "\U{1B}[1m\U{1B}[31m" + HexText2(byte) + "\U{1B}[0m unrecognized"
  }

  /** The sixteen conditional-jump opcodes get sixteen different mnemonics. */
  lemma JumpMnemonicsDistinct(m1: u8, m2: u8)
    requires 0x70 <= m1 <= 0x7F && 0x70 <= m2 <= 0x7F && m1 != m2
    ensures JumpMnemonic(m1) != JumpMnemonic(m2)
  {
    var k1, k2 := m1 / 2 % 8, m2 / 2 % 8;
    if m1 % 2 == m2 % 2 {
      var prefix := "j" + (if m1 % 2 == 1 then "n" else "");
      assert JumpMnemonic(m1) == prefix + JumpKinds[k1] && JumpMnemonic(m2) == prefix + JumpKinds[k2];
      assert k1 != k2;
      assert JumpKinds[k1] != JumpKinds[k2];
      assert (prefix + JumpKinds[k1])[|prefix|..] == JumpKinds[k1];
      assert (prefix + JumpKinds[k2])[|prefix|..] == JumpKinds[k2];
    } else {
      assert forall k :: 0 <= k < 8 ==> JumpKinds[k][0] != 'n';
      assert JumpMnemonic(m1)[1] != JumpMnemonic(m2)[1];
    }
  }

  lemma LoopMnemonicsDistinct(m1: u8, m2: u8)
    requires 0xE0 <= m1 <= 0xE3 && 0xE0 <= m2 <= 0xE3 && m1 != m2
    ensures LoopMnemonic(m1) != LoopMnemonic(m2)
  {
  }

  lemma NoSpaceInJumpMnemonic(m: u8)
    ensures ' ' !in JumpMnemonic(m)
  {
    var kind := JumpKinds[m / 2 % 8];
    assert forall k :: 0 <= k < 8 ==> ' ' !in JumpKinds[k];
    assert ' ' !in kind;
  }

  /** Position of the first space in `s`, or `|s|` when there is none. */
  function FirstSpace(s: string): (n: nat)
    ensures n <= |s|
    ensures forall k :: 0 <= k < n ==> s[k] != ' '
    ensures n < |s| ==> s[n] == ' '
  {
    if |s| == 0 then 0 else if s[0] == ' ' then 0 else 1 + FirstSpace(s[1..])
  }

  /** A space-free word followed by a space: the first space is right after the word. */
  lemma {:induction false} FirstSpaceAfterWord(a: string, x: string)
    requires ' ' !in a && |x| > 0 && x[0] == ' '
    ensures FirstSpace(a + x) == |a|
  {
    if |a| == 0 {
      assert a + x == x;
    } else {
      assert a[0] in a;
      assert (a + x)[1..] == a[1..] + x;
      assert forall c :: c in a[1..] ==> c in a;
      FirstSpaceAfterWord(a[1..], x);
    }
  }

  /** A register/memory `mov` or arithmetic instruction reads
      `<mnemonic> <target>, <source>`, and its mnemonic is the text before
      the first space. */
  lemma TwoOperandText(i: Instruction)
    requires i.Arithmetic? || i.Mov?
    ensures var mnemonic := if i.Mov? then "mov" else Math[i.op];
      && Text(i) == mnemonic + " " + PlaceText(i.target) + ", " + PlaceText(i.source)
      && FirstSpace(Text(i)) == |mnemonic| && Text(i)[..|mnemonic|] == mnemonic
  {
    var mnemonic := if i.Mov? then "mov" else Math[i.op];
    var target, source := PlaceText(i.target), PlaceText(i.source);
    assert Text(i) == mnemonic + " " + target + ", " + source;
    assert forall w | w in Math :: ' ' !in w;
    assert i.Arithmetic? ==> Math[i.op] in Math;
    SpaceAfterWord(mnemonic, target, source);
  }

  /** The first space of `<word> <target>, <source>` ends the word. */
  lemma SpaceAfterWord(word: string, target: string, source: string)
    requires ' ' !in word
    ensures FirstSpace(word + " " + target + ", " + source) == |word|
    ensures (word + " " + target + ", " + source)[..|word|] == word
  {
    var rest := " " + target + ", " + source;
    assert word + " " + target + ", " + source == word + rest;
    FirstSpaceAfterWord(word, rest);
  }

  /** The text of a conditional jump loses nothing: the opcode and the signed
      offset can both be read back from it. */
  lemma {:induction false} JumpTextInjective(m1: u8, o1: i8, m2: u8, o2: i8)
    requires 0x70 <= m1 <= 0x7F && 0x70 <= m2 <= 0x7F
    requires Text(Jump(m1, o1)) == Text(Jump(m2, o2))
    ensures m1 == m2 && o1 == o2
  {
    var a, b := JumpMnemonic(m1), JumpMnemonic(m2);
    var t := Text(Jump(m1, o1));
    NoSpaceInJumpMnemonic(m1);
    NoSpaceInJumpMnemonic(m2);
    assert t == a + (" $+2" + SignedText(o1));
    assert t == b + (" $+2" + SignedText(o2));
    FirstSpaceAfterWord(a, " $+2" + SignedText(o1));
    FirstSpaceAfterWord(b, " $+2" + SignedText(o2));
    assert a == t[..|a|] == b;
    if m1 != m2 {
      JumpMnemonicsDistinct(m1, m2);
    }
    assert (" $+2" + SignedText(o1))[4..] == SignedText(o1);
    assert (" $+2" + SignedText(o2))[4..] == SignedText(o2);
    SignedTextInjective(o1, o2);
  }
}
