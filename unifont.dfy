/** The glyph record the generated font table is made of (`FontChar` in
    src/unifont.rs), and the value of the hexadecimal literals that fill it. */
module Unifont {

  type u8 = x: int | 0 <= x < 0x100
  type u16 = x: int | 0 <= x < 0x1_0000

  /** Rust's `[u16; 16]`: exactly one 16-bit value per pixel row. */
  type Bitmap = s: seq<u16> | |s| == 16 witness seq(16, _ => 0)

  /** One character of the font: its width (8 for half-width, 16 for
      full-width) and its 16 rows, leftmost pixel in the most significant
      bit. The low byte of a half-width row is unused. */
  datatype FontChar = FontChar(width: u8, bitmap: Bitmap)

  predicate IsHexDigit(c: char)
  {
    '0' <= c <= '9' || 'a' <= c <= 'f' || 'A' <= c <= 'F'
  }

  function HexDigitValue(c: char): (v: nat)
    requires IsHexDigit(c)
    ensures v < 16
  {
    if '0' <= c <= '9' then c as int - '0' as int
    else if 'a' <= c <= 'f' then c as int - 'a' as int + 10
    else c as int - 'A' as int + 10
  }

  predicate IsHex(s: string)
  {
    forall i :: 0 <= i < |s| ==> IsHexDigit(s[i])
  }

  /** 16 to the power `n`: one more than the largest `n`-digit hex number. */
  function Pow16(n: nat): (p: nat)
    ensures p >= 1
  {
    if n == 0 then 1 else 16 * Pow16(n - 1)
  }

  /** The number the hex digits `s` denote, most significant first (the
      value of the Rust literal `0x` followed by `s`). */
  function HexValue(s: string): (v: nat)
    requires IsHex(s)
    ensures v < Pow16(|s|)
  {
    if s == [] then 0
    else
      var init := HexValue(s[..|s| - 1]);
      assert init * 16 <= (Pow16(|s| - 1) - 1) * 16;
      init * 16 + HexDigitValue(s[|s| - 1])
  }

  /** Appending hex digit `0` multiplies the value by 16. */
  lemma AppendZeroDigit(s: string)
    requires IsHex(s)
    ensures IsHex(s + "0") && HexValue(s + "0") == HexValue(s) * 16
  {
    assert (s + "0")[..|s|] == s;
  }

  /** Appending `00` shifts the value up one byte and leaves the low byte zero. */
  lemma AppendZeroByte(s: string)
    requires IsHex(s)
    ensures IsHex(s + "00")
    ensures HexValue(s + "00") == HexValue(s) * 0x100
    ensures HexValue(s + "00") % 0x100 == 0
  {
    AppendZeroDigit(s);
    AppendZeroDigit(s + "0");
    assert s + "0" + "0" == s + "00";
  }
}
