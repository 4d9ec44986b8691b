/** Machine integer widths, the Option wrapper, and the number formatting the
    renderers share (Rust's plain, sign-forced and two-digit hexadecimal integer formats). */
module Basics {

  /** Rust's `u8`, `u16` and `i8`, as ranges of the unbounded integers. */
  type u8 = x: int | 0 <= x < 0x100
  type u16 = x: int | 0 <= x < 0x1_0000
  type i8 = x: int | -0x80 <= x < 0x80

  /** A three-bit field of an encoding (a register code, an r/m code, an operation selector). */
  type Octal = x: int | 0 <= x < 8

  datatype Option<T> = None | Some(value: T)

  function Min(a: nat, b: nat): nat { if a <= b then a else b }

  /** `byte as i8`: the two's-complement reading of a byte. */
  function Signed8(b: u8): (r: i8)
    ensures r >= 0 <==> b < 0x80
    ensures (r + 0x100) % 0x100 == b
  {
    if b < 0x80 then b else b - 0x100
  }

  /** `x as u8` for an 8-bit signed value: the inverse of `Signed8`. */
  function Unsigned8(x: i8): u8 { if x < 0 then x + 0x100 else x }

  lemma SignedUnsignedInverse(b: u8, x: i8)
    ensures Unsigned8(Signed8(b)) == b
    ensures Signed8(Unsigned8(x)) == x
  {
  }

  // ---------------------------------------------------------------------------
  // Decimal text

  function DigitChar(d: nat): char
    requires d < 10
  {
    "0123456789"[d]
  }

  predicate IsDigit(c: char) { '0' <= c <= '9' }

  function DigitValue(c: char): nat
    requires IsDigit(c)
  {
    c as int - '0' as int
  }

  /** `{}` on an unsigned integer: shortest decimal text, no leading zero. */
  function DecimalText(n: nat): (s: string)
    ensures |s| >= 1
    ensures forall k :: 0 <= k < |s| ==> IsDigit(s[k])
    ensures s[0] == '0' ==> s == "0"
  {
    if n < 10 then [DigitChar(n)] else DecimalText(n / 10) + [DigitChar(n % 10)]
  }

  /** The value of a run of decimal digits. */
  function DecimalValue(s: string): nat
    requires forall k :: 0 <= k < |s| ==> IsDigit(s[k])
  {
    if |s| == 0 then 0 else 10 * DecimalValue(s[..|s| - 1]) + DigitValue(s[|s| - 1])
  }

  /** Reading back the rendered text gives the number: the text loses nothing. */
  lemma {:induction false} DecimalRoundTrip(n: nat)
    ensures DecimalValue(DecimalText(n)) == n
  {
    var s := DecimalText(n);
    if n >= 10 {
      DecimalRoundTrip(n / 10);
      assert s[..|s| - 1] == DecimalText(n / 10);
    }
  }

  lemma DecimalTextInjective(a: nat, b: nat)
    requires DecimalText(a) == DecimalText(b)
    ensures a == b
  {
    DecimalRoundTrip(a);
    DecimalRoundTrip(b);
  }

  /** The sign-forced format of a signed integer: the sign is always written, `+0` for zero. */
  function SignedText(x: int): (s: string)
    ensures |s| >= 2
    ensures s[0] == (if x < 0 then '-' else '+')
    ensures s[1..] == DecimalText(if x < 0 then -x else x)
  {
    if x < 0 then "-" + DecimalText(-x) else "+" + DecimalText(x)
  }

  lemma SignedTextInjective(a: int, b: int)
    requires SignedText(a) == SignedText(b)
    ensures a == b
  {
    DecimalTextInjective(if a < 0 then -a else a, if b < 0 then -b else b);
  }

  /** A run of digits holds no line break. */
  lemma DigitsOnOneLine(s: string)
    requires forall k :: 0 <= k < |s| ==> IsDigit(s[k])
    ensures '\n' !in s
  {
  }

  // ---------------------------------------------------------------------------
  // Hexadecimal text

  function HexDigit(d: nat): char
    requires d < 16
  {
    "0123456789abcdef"[d]
  }

  /** The two-digit hexadecimal format of a byte: lower-case hexadecimal, right-aligned in two columns
      with a space as the fill (not a zero). */
  function HexText2(b: u8): (s: string)
    ensures |s| == 2
    ensures s[1] == HexDigit(b % 16)
    ensures s[0] == (if b < 16 then ' ' else HexDigit(b / 16))
  {
    if b < 16 then [' ', HexDigit(b)] else [HexDigit(b / 16), HexDigit(b % 16)]
  }

  /** Numbers, signed, unsigned or hexadecimal, print on one line. */
  lemma NumbersOnOneLine(n: nat, x: int, b: u8)
    ensures '\n' !in DecimalText(n) && '\n' !in SignedText(x) && '\n' !in HexText2(b)
  {
    DigitsOnOneLine(DecimalText(n));
    var magnitude := if x < 0 then -x else x;
    DigitsOnOneLine(DecimalText(magnitude));
    assert SignedText(x) == SignedText(x)[..1] + DecimalText(magnitude);
    HexOnOneLine(b);
  }

  lemma HexOnOneLine(b: u8)
    ensures '\n' !in HexText2(b)
  {
    var s := HexText2(b);
    var high, low := if b < 16 then 0 else b / 16, b % 16;
    assert "0123456789abcdef"[high] != '\n' && "0123456789abcdef"[low] != '\n';
    assert s == [s[0], s[1]];
  }
}
