/** The interpreter's register file: four data cells that can also be used as
    byte halves, four pointer and index words, and the sign and zero flags.

    The Rust code overlays a `{h, l}` byte pair on each data word with a
    union whose layout depends on the host; here the high half is bits 15-8
    and the low half bits 7-0, as on the 8086.  The byte registers are
    mapped onto the cells exactly as the code maps them, which is not the
    8086 mapping: BL/BH live in CX's cell, CL/CH in DX's and DL/DH in BX's. */
module RegisterFile {
  import opened Basics
  import opened Operands

  /** The register file as a value. */
  datatype RegisterValues = RegisterValues(dataGroup: seq<u16>, metaGroup: seq<u16>, flagZero: bool, flagSign: bool)

  predicate WellFormed(r: RegisterValues) { |r.dataGroup| == 4 && |r.metaGroup| == 4 }

  /** `Registers::default()`: every cell 0, both flags clear. */
  const Cleared := RegisterValues([0, 0, 0, 0], [0, 0, 0, 0], false, false)

  /** Where a word register lives: AX..BX in the data group, SP..DI in the
      meta group, each at the position of its code within the group. */
  function WordCell(r: RegisterWord): (p: (bool, nat))
    ensures p.1 < 4
    ensures p.0 <==> WordCode(r) < 4
    ensures p.1 == WordCode(r) % 4
  {
    match r
    case AX => (true, 0) case CX => (true, 1) case DX => (true, 2) case BX => (true, 3)
    case SP => (false, 0) case BP => (false, 1) case SI => (false, 2) case DI => (false, 3)
  }

  /** Which data cell a byte register is half of, and whether it is the high half. */
  function ByteCell(r: RegisterByte): (p: (nat, bool))
    ensures p.0 < 4
  {
    match r
    case AL => (0, false) case AH => (0, true)
    case BL => (1, false) case BH => (1, true)
    case CL => (2, false) case CH => (2, true)
    case DL => (3, false) case DH => (3, true)
  }

  function High(w: u16): u8 { w / 0x100 }
  function Low(w: u16): u8 { w % 0x100 }

  /** `w` with one half replaced by `b`. */
  function WithHalf(w: u16, high: bool, b: u8): (r: u16)
    ensures high ==> High(r) == b && Low(r) == Low(w)
    ensures !high ==> Low(r) == b && High(r) == High(w)
  {
    if high then b * 0x100 + Low(w) else High(w) * 0x100 + b
  }

  /** `Index<RegisterWord>`. */
  function ReadWord(rv: RegisterValues, r: RegisterWord): u16
    requires WellFormed(rv)
  {
    var (data, k) := WordCell(r);
    if data then rv.dataGroup[k] else rv.metaGroup[k]
  }

  /** A write through `IndexMut<RegisterWord>`. */
  function WriteWord(rv: RegisterValues, r: RegisterWord, v: u16): (after: RegisterValues)
    requires WellFormed(rv)
    ensures WellFormed(after)
  {
    var (data, k) := WordCell(r);
    if data then rv.(dataGroup := rv.dataGroup[k := v]) else rv.(metaGroup := rv.metaGroup[k := v])
  }

  /** `Index<RegisterByte>`. */
  function ReadByte(rv: RegisterValues, r: RegisterByte): u8
    requires WellFormed(rv)
  {
    var (k, high) := ByteCell(r);
    if high then High(rv.dataGroup[k]) else Low(rv.dataGroup[k])
  }

  /** A write through `IndexMut<RegisterByte>`. */
  function WriteByte(rv: RegisterValues, r: RegisterByte, v: u8): (after: RegisterValues)
    requires WellFormed(rv)
    ensures WellFormed(after)
  {
    var (k, high) := ByteCell(r);
    rv.(dataGroup := rv.dataGroup[k := WithHalf(rv.dataGroup[k], high, v)])
  }

  /** The word register whose cell a byte register is half of. */
  function AliasedWord(r: RegisterByte): RegisterWord
  {
    [AX, CX, DX, BX][ByteCell(r).0]
  }

  /** Word-register access is a total map: a write is seen by a read of the
      same register and by nothing else, and the flags keep their values. */
  lemma WordWriteThenRead(rv: RegisterValues, r: RegisterWord, v: u16, q: RegisterWord)
    requires WellFormed(rv)
    ensures ReadWord(WriteWord(rv, r, v), q) == if q == r then v else ReadWord(rv, q)
    ensures WriteWord(rv, r, v).flagZero == rv.flagZero && WriteWord(rv, r, v).flagSign == rv.flagSign
  {
  }

  /** Writing a byte register changes that byte and no other: the other
      half of its cell, the other cells, the pointer registers and the
      flags are as before. */
  lemma ByteWriteThenRead(rv: RegisterValues, r: RegisterByte, v: u8, q: RegisterByte)
    requires WellFormed(rv)
    ensures ReadByte(WriteByte(rv, r, v), q) == if q == r then v else ReadByte(rv, q)
    ensures WriteByte(rv, r, v).metaGroup == rv.metaGroup
    ensures WriteByte(rv, r, v).flagZero == rv.flagZero && WriteByte(rv, r, v).flagSign == rv.flagSign
  {
  }

  /** A byte write shows through exactly one word register, the one sharing its cell. */
  lemma ByteWriteSeenByWord(rv: RegisterValues, r: RegisterByte, v: u8, q: RegisterWord)
    requires WellFormed(rv)
    ensures q != AliasedWord(r) ==> ReadWord(WriteByte(rv, r, v), q) == ReadWord(rv, q)
    ensures q == AliasedWord(r) ==> ReadWord(WriteByte(rv, r, v), q) == WithHalf(ReadWord(rv, q), ByteCell(r).1, v)
  {
  }

  /** The aliasing as the code has it: AL/AH are the halves of AX, BL/BH of
      CX, CL/CH of DX and DL/DH of BX. */
  lemma ByteAliasing(rv: RegisterValues)
    requires WellFormed(rv)
    ensures ReadByte(rv, AL) == Low(ReadWord(rv, AX)) && ReadByte(rv, AH) == High(ReadWord(rv, AX))
    ensures ReadByte(rv, BL) == Low(ReadWord(rv, CX)) && ReadByte(rv, BH) == High(ReadWord(rv, CX))
    ensures ReadByte(rv, CL) == Low(ReadWord(rv, DX)) && ReadByte(rv, CH) == High(ReadWord(rv, DX))
    ensures ReadByte(rv, DL) == Low(ReadWord(rv, BX)) && ReadByte(rv, DH) == High(ReadWord(rv, BX))
  {
  }

  /** Each data word is exactly its two byte halves. */
  lemma WordIsItsHalves(rv: RegisterValues, r: RegisterByte)
    requires WellFormed(rv) && !ByteCell(r).1
    ensures ReadWord(rv, AliasedWord(r)) == 0x100 * High(ReadWord(rv, AliasedWord(r))) + ReadByte(rv, r)
  {
  }

  /** `flags_string`: "S" when the sign flag is set, then "Z" when the zero flag is. */
  function FlagsText(flagSign: bool, flagZero: bool): (s: string)
    ensures |s| <= 2
    ensures 'S' in s <==> flagSign
    ensures 'Z' in s <==> flagZero
    ensures flagSign ==> s[0] == 'S'
  {
    (if flagSign then "S" else "") + (if flagZero then "Z" else "")
  }

  /** The text tells the four flag combinations apart. */
  lemma FlagsTextInjective(s1: bool, z1: bool, s2: bool, z2: bool)
    requires FlagsText(s1, z1) == FlagsText(s2, z2)
    ensures s1 == s2 && z1 == z2
  {
  }

  /** `Registers`: the register file the interpreter updates in place. */
  class Registers {
    var dataGroup: array<u16>
    var metaGroup: array<u16>
    var flagZero: bool
    var flagSign: bool

    predicate Valid()
      reads this
    {
      dataGroup.Length == 4 && metaGroup.Length == 4 && dataGroup != metaGroup
    }

    function View(): (rv: RegisterValues)
      reads this, dataGroup, metaGroup
      requires Valid()
      ensures WellFormed(rv)
    {
      RegisterValues(dataGroup[..], metaGroup[..], flagZero, flagSign)
    }

    /** `Registers::default()`. */
    constructor ()
      ensures Valid() && View() == Cleared
      ensures fresh(dataGroup) && fresh(metaGroup)
    {
      var data := new u16[4](_ => 0);
      var meta := new u16[4](_ => 0);
      assert data[..] == [0, 0, 0, 0];
      assert meta[..] == [0, 0, 0, 0];
      dataGroup, metaGroup := data, meta;
      flagZero, flagSign := false, false;
    }

    /** `self[reg]` for a word register. */
    function Word(r: RegisterWord): (v: u16)
      reads this, dataGroup, metaGroup
      requires Valid()
      ensures v == ReadWord(View(), r)
    {
      var (data, k) := WordCell(r);
      if data then dataGroup[k] else metaGroup[k]
    }

    /** `self[reg]` for a byte register. */
    function Byte(r: RegisterByte): (v: u8)
      reads this, dataGroup, metaGroup
      requires Valid()
      ensures v == ReadByte(View(), r)
    {
      var (k, high) := ByteCell(r);
      if high then High(dataGroup[k]) else Low(dataGroup[k])
    }

    /** `self[reg] = v` for a word register. */
    method SetWord(r: RegisterWord, v: u16)
      requires Valid()
      modifies dataGroup, metaGroup
      ensures Valid() && View() == WriteWord(old(View()), r, v)
    {
      var (data, k) := WordCell(r);
      if data {
        dataGroup[k] := v;
      } else {
        metaGroup[k] := v;
      }
    }

    /** `self[reg] = v` for a byte register: one half of a data cell. */
    method SetByte(r: RegisterByte, v: u8)
      requires Valid()
      modifies dataGroup
      ensures Valid() && View() == WriteByte(old(View()), r, v)
    {
      var (k, high) := ByteCell(r);
      dataGroup[k] := WithHalf(dataGroup[k], high, v);
    }

    /** The flag updates after an arithmetic instruction. */
    method SetFlags(sign: bool, zero: bool)
      requires Valid()
      modifies this
      ensures Valid() && dataGroup == old(dataGroup) && metaGroup == old(metaGroup)
      ensures View() == old(View()).(flagSign := sign, flagZero := zero)
    {
      flagSign := sign;
      flagZero := zero;
    }

    function FlagsString(): (s: string)
      reads this
      ensures 'S' in s <==> flagSign
      ensures 'Z' in s <==> flagZero
    {
      FlagsText(flagSign, flagZero)
    }
  }
}
