/** The byte cursor of the 8086 decoder: a view of the bytes not yet decoded,
    which every decoding step shrinks from the front.  The Rust code threads
    it as `&mut &[u8]`; here it is passed in as `memory` and handed back as
    `rest`. */
module Cursor {
  import opened Basics

  function Pow256(n: nat): (r: nat)
    ensures r >= 1
    ensures n == 0 ==> r == 1
    ensures n == 1 ==> r == 0x100
    ensures n == 2 ==> r == 0x1_0000
  {
    if n == 0 then 1 else 0x100 * Pow256(n - 1)
  }

  /** The little-endian value of a byte string, the sum of bs[k] * 256^k. */
  function LittleEndian(bs: seq<u8>): (v: nat)
    ensures v < Pow256(|bs|)
  {
    if |bs| == 0 then 0 else bs[0] + 0x100 * LittleEndian(bs[1..])
  }

  function Reversed(bs: seq<u8>): (r: seq<u8>)
    ensures |r| == |bs|
    ensures forall k :: 0 <= k < |bs| ==> r[k] == bs[|bs| - 1 - k]
  {
    if |bs| == 0 then [] else Reversed(bs[1..]) + [bs[0]]
  }

  /** The fold `advance_by` runs over the reversed bytes: each byte is shifted
      in below the ones before it. */
  function FoldShiftingIn(acc: nat, bs: seq<u8>): nat
    decreases |bs|
  {
    if |bs| == 0 then acc else FoldShiftingIn(0x100 * acc + bs[0], bs[1..])
  }

  lemma {:induction false} FoldShiftingInSnoc(acc: nat, bs: seq<u8>, b: u8)
    ensures FoldShiftingIn(acc, bs + [b]) == 0x100 * FoldShiftingIn(acc, bs) + b
    decreases |bs|
  {
    if |bs| > 0 {
      assert (bs + [b])[1..] == bs[1..] + [b];
      FoldShiftingInSnoc(0x100 * acc + bs[0], bs[1..], b);
    }
  }

  /** Folding the reversed bytes from `acc` computes acc * 256^n plus the
      little-endian value: from zero it is exactly the little-endian value. */
  lemma {:induction false} FoldIsLittleEndian(acc: nat, bs: seq<u8>)
    ensures FoldShiftingIn(acc, Reversed(bs)) == acc * Pow256(|bs|) + LittleEndian(bs)
  {
    if |bs| > 0 {
      var n := |bs|;
      calc {
        FoldShiftingIn(acc, Reversed(bs));
        { assert Reversed(bs) == Reversed(bs[1..]) + [bs[0]]; }
        FoldShiftingIn(acc, Reversed(bs[1..]) + [bs[0]]);
        { FoldShiftingInSnoc(acc, Reversed(bs[1..]), bs[0]); }
        0x100 * FoldShiftingIn(acc, Reversed(bs[1..])) + bs[0];
        { FoldIsLittleEndian(acc, bs[1..]); }
        0x100 * (acc * Pow256(n - 1) + LittleEndian(bs[1..])) + bs[0];
        { assert 0x100 * (acc * Pow256(n - 1)) == acc * (0x100 * Pow256(n - 1)); }
        acc * Pow256(n) + LittleEndian(bs);
      }
    }
  }

  /** What `advance` yields: the first byte, or 0 on an empty cursor. */
  function Head(memory: seq<u8>): u8 { if |memory| == 0 then 0 else memory[0] }

  /** What `advance` leaves: one byte fewer, or the empty cursor unchanged. */
  function Tail(memory: seq<u8>): seq<u8> { if |memory| == 0 then memory else memory[1..] }

  /** `advance`: takes the first byte.  On an empty cursor it yields 0 and
      leaves the cursor as it is instead of failing. */
  method Advance(memory: seq<u8>) returns (byte: u8, rest: seq<u8>)
    ensures |memory| == 0 ==> byte == 0 && rest == memory
    ensures |memory| > 0 ==> memory == [byte] + rest
    ensures byte == Head(memory) && rest == Tail(memory)
  {
    if |memory| == 0 {
      return 0, memory;
    }
    byte := memory[0];
    rest := memory[1..];
  }

  /** `advance_by`: splits off `width` bytes and reads them little-endian.
      `split_at` panics on a cursor shorter than `width`, hence the requires. */
  method AdvanceBy(memory: seq<u8>, width: nat) returns (value: nat, rest: seq<u8>)
    requires width <= |memory|
    ensures memory == memory[..width] + rest
    ensures value == LittleEndian(memory[..width])
    ensures value < Pow256(width)
  {
    var displacementBytes := memory[..width];
    rest := memory[width..];
    value := FoldShiftingIn(0, Reversed(displacementBytes));
    FoldIsLittleEndian(0, displacementBytes);
  }

  /** `mod_reg_rm`: takes one byte and splits it into its 2-bit mode (bits 7-6),
      3-bit reg (bits 5-3) and 3-bit r/m (bits 2-0) fields. */
  method ModRegRm(memory: seq<u8>) returns (mode: u8, reg: Octal, rm: Octal, rest: seq<u8>)
    ensures mode < 4
    ensures mode * 64 + reg * 8 + rm == Head(memory)
    ensures rest == Tail(memory)
  {
    var byte;
    byte, rest := Advance(memory);
    rm := byte % 8;
    byte := byte / 8;
    reg := byte % 8;
    byte := byte / 8;
    mode := byte;
  }

  /** What is left after reading on from a cursor is what is left of the
      cursor it started from. */
  lemma SuffixOfSuffix(memory: seq<u8>, middle: seq<u8>, rest: seq<u8>)
    requires |middle| <= |memory| && middle == memory[|memory| - |middle|..]
    requires |rest| <= |middle| && rest == middle[|middle| - |rest|..]
    ensures rest == memory[|memory| - |rest|..]
  {
  }

  /** Splitting `width` bytes off leaves the bytes after them. */
  lemma SplitOff(memory: seq<u8>, width: nat, rest: seq<u8>)
    requires width <= |memory| && memory == memory[..width] + rest
    ensures |rest| == |memory| - width && rest == memory[|memory| - |rest|..]
  {
    assert memory[width..] == (memory[..width] + rest)[width..];
  }

  /** The three fields of a mod-reg-r/m byte are determined by the byte. */
  lemma ModRegRmFields(b: u8, mode: nat, reg: nat, rm: nat)
    requires mode < 4 && reg < 8 && rm < 8
    requires mode * 64 + reg * 8 + rm == b
    ensures mode == b / 64 && reg == b / 8 % 8 && rm == b % 8
  {
    var high := 8 * mode + reg;
    DivideBy8(b, high, rm);
    DivideBy8(high, mode, reg);
    DivideBy64(b, mode, 8 * reg + rm);
  }

  lemma DivideBy8(a: int, q: int, r: int)
    requires 0 <= r < 8 && a == 8 * q + r
    ensures a / 8 == q && a % 8 == r
  {
  }

  lemma DivideBy64(a: int, q: int, r: int)
    requires 0 <= r < 64 && a == 64 * q + r
    ensures a / 64 == q && a % 64 == r
  {
  }
}
