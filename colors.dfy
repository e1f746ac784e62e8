/**
 * The integer colour type of the palette tool: `HexColor`, its derived
 * lexicographic order, and its `#RRGGBB` text form (src/lib.rs).
 */
module Colors {
  import opened Outcomes

  /** An unsigned 8-bit channel value (Rust `u8`). */
  type u8 = x: int | 0 <= x < 256

  /** One hexadecimal digit's value. */
  type Nibble = x: int | 0 <= x < 16

  /** An RGB colour with one byte per channel, fields in declaration order r, g, b. */
  datatype HexColor = HexColor(r: u8, g: u8, b: u8)

  // ---------------------------------------------------------------------------
  // Derived ordering
  // ---------------------------------------------------------------------------

  datatype Ordering = Less | Equal | Greater

  function CompareChannel(x: u8, y: u8): Ordering
  {
    if x < y then Less else if x == y then Equal else Greater
  }

  /**
   * The order `#[derive(PartialOrd, Ord)]` gives the struct: fields are
   * compared in declaration order and the first unequal one decides.
   */
  function Compare(a: HexColor, b: HexColor): Ordering
  {
    match CompareChannel(a.r, b.r)
    case Equal => (
      match CompareChannel(a.g, b.g)
      case Equal => CompareChannel(a.b, b.b)
      case o => o)
    case o => o
  }

  /** An independent reading of a colour as the 24-bit number 0xRRGGBB. */
  function Packed(c: HexColor): nat
  {
    c.r * 65536 + c.g * 256 + c.b
  }

  lemma PackedBelowNextRed(c: HexColor)
    ensures c.r * 65536 <= Packed(c) < (c.r + 1) * 65536
    ensures c.g * 256 <= Packed(c) - c.r * 65536 < (c.g + 1) * 256
  {
  }

  /**
   * The derived order is the numeric order of the packed 24-bit values:
   * in particular it is a total order and `Equal` means equal colours.
   */
  lemma CompareMatchesPacked(a: HexColor, b: HexColor)
    ensures Compare(a, b) == Less <==> Packed(a) < Packed(b)
    ensures Compare(a, b) == Equal <==> a == b
    ensures Compare(a, b) == Greater <==> Packed(a) > Packed(b)
  {
    PackedBelowNextRed(a);
    PackedBelowNextRed(b);
    if a.r < b.r {
      assert (a.r + 1) * 65536 <= b.r * 65536;
    } else if a.r > b.r {
      assert (b.r + 1) * 65536 <= a.r * 65536;
    } else if a.g < b.g {
      assert (a.g + 1) * 256 <= b.g * 256;
    } else if a.g > b.g {
      assert (b.g + 1) * 256 <= a.g * 256;
    }
  }

  /** Swapping the operands reverses the outcome. */
  lemma CompareAntisymmetric(a: HexColor, b: HexColor)
    ensures Compare(a, b) == Less <==> Compare(b, a) == Greater
    ensures Compare(a, b) == Equal <==> Compare(b, a) == Equal
  {
    CompareMatchesPacked(a, b);
    CompareMatchesPacked(b, a);
  }

  /** The order is transitive. */
  lemma CompareTransitive(a: HexColor, b: HexColor, c: HexColor)
    requires Compare(a, b) == Less && Compare(b, c) == Less
    ensures Compare(a, c) == Less
  {
    CompareMatchesPacked(a, b);
    CompareMatchesPacked(b, c);
    CompareMatchesPacked(a, c);
  }

  // ---------------------------------------------------------------------------
  // Hex string form: format!("#{:02X}{:02X}{:02X}", r, g, b)
  // ---------------------------------------------------------------------------

  predicate IsUpperHexDigit(ch: char)
  {
    '0' <= ch <= '9' || 'A' <= ch <= 'F'
  }

  /** The upper-case digit for a nibble. */
  function HexDigit(n: Nibble): (ch: char)
    ensures IsUpperHexDigit(ch)
  {
    if n < 10 then ('0' as int + n) as char else ('A' as int + n - 10) as char
  }

  /** The value of an upper-case hex digit; lower case and anything else is rejected. */
  function DigitValue(ch: char): Option<Nibble>
  {
    if '0' <= ch <= '9' then Some(ch as int - '0' as int)
    else if 'A' <= ch <= 'F' then Some(ch as int - 'A' as int + 10)
    else None
  }

  lemma DigitRoundTrip(n: Nibble)
    ensures DigitValue(HexDigit(n)) == Some(n)
  {
  }

  lemma DigitValueInverse(ch: char)
    requires DigitValue(ch).Some?
    ensures HexDigit(DigitValue(ch).value) == ch
  {
  }

  /** `{:02X}` of a byte: high nibble then low nibble, always two digits. */
  function HexByte(x: u8): string
  {
    [HexDigit(x / 16), HexDigit(x % 16)]
  }

  /** `String::from(&HexColor)`. */
  function ToHexString(c: HexColor): (s: string)
    ensures |s| == 7 && s[0] == '#'
    ensures forall i :: 1 <= i < 7 ==> IsUpperHexDigit(s[i])
  {
    "#" + HexByte(c.r) + HexByte(c.g) + HexByte(c.b)
  }

  /** Reads two upper-case hex digits as a byte. */
  function ParseHexByte(hi: char, lo: char): Option<u8>
  {
    match (DigitValue(hi), DigitValue(lo))
    case (Some(h), Some(l)) => Some(h * 16 + l)
    case _ => None
  }

  /** Reads a `#RRGGBB` string with upper-case digits back into a colour. */
  function ParseHexString(s: string): Option<HexColor>
  {
    if |s| != 7 || s[0] != '#' then None
    else
      match (ParseHexByte(s[1], s[2]), ParseHexByte(s[3], s[4]), ParseHexByte(s[5], s[6]))
      case (Some(r), Some(g), Some(b)) => Some(HexColor(r, g, b))
      case _ => None
  }

  /** Characters 1-2, 3-4 and 5-6 are the high and low nibbles of r, g and b. */
  lemma HexStringNibbles(c: HexColor)
    ensures DigitValue(ToHexString(c)[1]) == Some(c.r / 16)
    ensures DigitValue(ToHexString(c)[2]) == Some(c.r % 16)
    ensures DigitValue(ToHexString(c)[3]) == Some(c.g / 16)
    ensures DigitValue(ToHexString(c)[4]) == Some(c.g % 16)
    ensures DigitValue(ToHexString(c)[5]) == Some(c.b / 16)
    ensures DigitValue(ToHexString(c)[6]) == Some(c.b % 16)
  {
    var s := ToHexString(c);
    assert s[1] == HexDigit(c.r / 16) && s[2] == HexDigit(c.r % 16);
    assert s[3] == HexDigit(c.g / 16) && s[4] == HexDigit(c.g % 16);
    assert s[5] == HexDigit(c.b / 16) && s[6] == HexDigit(c.b % 16);
    DigitRoundTrip(c.r / 16);
    DigitRoundTrip(c.r % 16);
    DigitRoundTrip(c.g / 16);
    DigitRoundTrip(c.g % 16);
    DigitRoundTrip(c.b / 16);
    DigitRoundTrip(c.b % 16);
  }

  lemma HexByteRoundTrip(x: u8)
    ensures ParseHexByte(HexDigit(x / 16), HexDigit(x % 16)) == Some(x)
  {
    DigitRoundTrip(x / 16);
    DigitRoundTrip(x % 16);
  }

  /** Decoding the encoding gives the colour back. */
  lemma HexStringRoundTrip(c: HexColor)
    ensures ParseHexString(ToHexString(c)) == Some(c)
  {
    var s := ToHexString(c);
    assert s[1] == HexDigit(c.r / 16) && s[2] == HexDigit(c.r % 16);
    assert s[3] == HexDigit(c.g / 16) && s[4] == HexDigit(c.g % 16);
    assert s[5] == HexDigit(c.b / 16) && s[6] == HexDigit(c.b % 16);
    HexByteRoundTrip(c.r);
    HexByteRoundTrip(c.g);
    HexByteRoundTrip(c.b);
  }

  lemma ParseHexByteExact(hi: char, lo: char)
    requires ParseHexByte(hi, lo).Some?
    ensures HexByte(ParseHexByte(hi, lo).value) == [hi, lo]
  {
    var h: int, l: int := DigitValue(hi).value, DigitValue(lo).value;
    var x: int := h * 16 + l;
    assert x / 16 == h && x % 16 == l;
    DigitValueInverse(hi);
    DigitValueInverse(lo);
  }

  /** Every string the decoder accepts is the encoding of what it decodes to. */
  lemma ParseHexStringExact(s: string)
    requires ParseHexString(s).Some?
    ensures ToHexString(ParseHexString(s).value) == s
  {
    ParseHexByteExact(s[1], s[2]);
    ParseHexByteExact(s[3], s[4]);
    ParseHexByteExact(s[5], s[6]);
    assert s == [s[0]] + [s[1], s[2]] + [s[3], s[4]] + [s[5], s[6]];
  }

  /** Distinct colours have distinct hex strings. */
  lemma HexStringInjective(a: HexColor, b: HexColor)
    requires ToHexString(a) == ToHexString(b)
    ensures a == b
  {
    HexStringRoundTrip(a);
    HexStringRoundTrip(b);
  }
}
