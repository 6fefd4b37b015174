/**
 * hex2bin: a hexadecimal numeral read with parseInt, written out in binary, and left-padded
 * to a fixed number of bits. The radixes, the bit length and the padding digit come from a
 * constants table that is not part of this model, so they are parameters here.
 */
module StringUtils {
  import Strings

  /** `s.padStart(n, fill)` with a one-character fill: left-filled to length n, never cut. */
  function PadStart(s: string, n: nat, fill: char): (r: string)
    ensures |s| < n ==> |r| == n && r == Strings.Repeat(fill, n - |s|) + s
    ensures |s| >= n ==> r == s
    ensures r[|r| - |s|..] == s
  {
    if |s| >= n then s else Strings.Repeat(fill, n - |s|) + s
  }

  /** hex2bin. `hex` must be a numeral in `hexRadix`: malformed input to parseInt is not modelled. */
  function Hex2Bin(hex: string, hexRadix: nat, binRadix: nat, bitLength: nat, emptyBit: char): (r: string)
    requires Strings.ValidRadix(hexRadix) && Strings.ValidRadix(binRadix)
    requires |hex| > 0 && Strings.IsNumeral(hex, hexRadix)
    ensures |r| >= bitLength
  {
    PadStart(Strings.NatToString(Strings.ParseNat(hex, hexRadix), binRadix), bitLength, emptyBit)
  }

  /**
   * The output is the binary digits of the parsed value, preceded by exactly the padding
   * needed to reach `bitLength` (none when the digits are long enough already); stripping
   * that padding and reading the rest in `binRadix` gives back what parseInt read.
   */
  lemma Hex2BinDigits(hex: string, hexRadix: nat, binRadix: nat, bitLength: nat, emptyBit: char)
    requires Strings.ValidRadix(hexRadix) && Strings.ValidRadix(binRadix)
    requires |hex| > 0 && Strings.IsNumeral(hex, hexRadix)
    ensures var digits := Strings.NatToString(Strings.ParseNat(hex, hexRadix), binRadix);
      var r := Hex2Bin(hex, hexRadix, binRadix, bitLength, emptyBit);
      var padding := if |digits| < bitLength then bitLength - |digits| else 0;
      && |r| == padding + |digits|
      && r[..padding] == Strings.Repeat(emptyBit, padding)
      && r[padding..] == digits
      && Strings.IsNumeral(r[padding..], binRadix)
      && Strings.ParseNat(r[padding..], binRadix) == Strings.ParseNat(hex, hexRadix)
  {
    var value := Strings.ParseNat(hex, hexRadix);
    Strings.ParseNatToString(value, binRadix);
  }

  /** With '0' as the padding digit the whole output reads back as the parsed value. */
  lemma Hex2BinRoundTrip(hex: string, hexRadix: nat, binRadix: nat, bitLength: nat)
    requires Strings.ValidRadix(hexRadix) && Strings.ValidRadix(binRadix)
    requires |hex| > 0 && Strings.IsNumeral(hex, hexRadix)
    ensures var r := Hex2Bin(hex, hexRadix, binRadix, bitLength, '0');
      Strings.IsNumeral(r, binRadix) && Strings.ParseNat(r, binRadix) == Strings.ParseNat(hex, hexRadix)
  {
    var value := Strings.ParseNat(hex, hexRadix);
    var digits := Strings.NatToString(value, binRadix);
    Strings.ParseNatToString(value, binRadix);
    if |digits| < bitLength {
      Strings.ParseNatLeadingZeros(bitLength - |digits|, digits, binRadix);
    }
  }

  /** "ff" in radix 16, written in radix 2 and padded to 10 bits. */
  lemma Hex2BinExample()
    ensures Hex2Bin("ff", 16, 2, 10, '0') == "0011111111"
  {
    assert "ff"[..1] == "f";
    assert "f"[..0] == "";
    assert Strings.ParseNat("ff", 16) == 255;
    assert Strings.NatToString(255, 2) == "11111111";
  }
}
