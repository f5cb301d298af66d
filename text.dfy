/** The text the firmware prints with `printf`: `%d` of a non-negative value
    and `%02x` of a byte. Each rendering comes with the reading back that
    recovers the value, so a printed line carries its numbers unambiguously. */
module Text {
  import opened Frame

  /** The character of digit d in base 16, lower case as `%x` prints it. */
  function DigitChar(d: nat): (c: char)
    requires d < 16
  {
    if d < 10 then ('0' as int + d) as char else ('a' as int + d - 10) as char
  }

  predicate IsDecimalChar(c: char)
  {
    '0' <= c <= '9'
  }

  /** The value of a hexadecimal digit character (0 for any other). */
  function DigitValue(c: char): (v: nat)
    ensures v < 16
  {
    if '0' <= c <= '9' then c as int - '0' as int
    else if 'a' <= c <= 'f' then c as int - 'a' as int + 10
    else 0
  }

  lemma DigitRoundTrip(d: nat)
    requires d < 16
    ensures DigitValue(DigitChar(d)) == d
    ensures IsDecimalChar(DigitChar(d)) <==> d < 10
  {
  }

  /** `printf("%d", n)`: the decimal digits of n, most significant first,
      without leading zeros. */
  function Decimal(n: nat): (s: string)
    ensures 1 <= |s|
    ensures |s| == 1 <==> n < 10
    ensures forall i :: 0 <= i < |s| ==> IsDecimalChar(s[i])
    ensures n >= 10 ==> s[0] != '0'
    decreases n
  {
    if n < 10 then [DigitChar(n)] else Decimal(n / 10) + [DigitChar(n % 10)]
  }

  /** A value below 10 prints as its one digit character, which reads back. */
  lemma SingleDigit(n: nat)
    requires n < 10
    ensures Decimal(n) == [DigitChar(n)] && DigitValue(DigitChar(n)) == n
  {
    DigitRoundTrip(n);
  }

  /** Reads a string of decimal digits back as a number. */
  function DecimalValue(s: string): nat
  {
    if s == [] then 0 else 10 * DecimalValue(s[..|s| - 1]) + DigitValue(s[|s| - 1])
  }

  /** `%d` loses nothing: its digits read back as the printed value. */
  lemma {:induction false} DecimalRoundTrip(n: nat)
    ensures DecimalValue(Decimal(n)) == n
    decreases n
  {
    DigitRoundTrip(n % 10);
    if n >= 10 {
      DecimalRoundTrip(n / 10);
      var s := Decimal(n);
      assert s[..|s| - 1] == Decimal(n / 10);
    }
  }

  /** A digit `%x` prints: 0-9 or a-f. */
  predicate IsHexChar(c: char)
  {
    '0' <= c <= '9' || 'a' <= c <= 'f'
  }

  /** `printf("%02x", b)`: exactly two lower-case hexadecimal digits, high
      nibble first. */
  function Hex2(b: Byte): (s: string)
    ensures |s| == 2 && IsHexChar(s[0]) && IsHexChar(s[1])
    ensures 16 * DigitValue(s[0]) + DigitValue(s[1]) == b
  {
    DigitRoundTrip(b / 16);
    DigitRoundTrip(b % 16);
    [DigitChar(b / 16), DigitChar(b % 16)]
  }

  /** `printf("0x%02x ", b)` for each byte, in order. */
  function HexDump(raw: seq<Byte>): (s: string)
    ensures |s| == 5 * |raw|
  {
    if raw == [] then "" else "0x" + Hex2(raw[0]) + " " + HexDump(raw[1..])
  }

  /** The dump is one five-character group per byte, in index order: "0x",
      the byte's two hexadecimal digits, a space. */
  lemma {:induction false} HexDumpGroup(raw: seq<Byte>, i: nat)
    requires i < |raw|
    ensures HexDump(raw)[5 * i..5 * i + 5] == "0x" + Hex2(raw[i]) + " "
  {
    var g := "0x" + Hex2(raw[0]) + " ";
    assert HexDump(raw) == g + HexDump(raw[1..]);
    if i > 0 {
      HexDumpGroup(raw[1..], i - 1);
      assert HexDump(raw)[5 * i..5 * i + 5] == HexDump(raw[1..])[5 * (i - 1)..5 * (i - 1) + 5];
    }
  }

  /** Reads a hexadecimal dump back, five characters per byte. */
  function ParseHexDump(s: string): seq<nat>
    decreases |s|
  {
    if |s| < 5 then [] else [16 * DigitValue(s[2]) + DigitValue(s[3])] + ParseHexDump(s[5..])
  }

  /** The dump echoes every byte verbatim and in index order. */
  lemma {:induction false} HexDumpRoundTrip(raw: seq<Byte>)
    ensures ParseHexDump(HexDump(raw)) == raw
  {
    if raw != [] {
      var s := HexDump(raw);
      DigitRoundTrip(raw[0] / 16);
      DigitRoundTrip(raw[0] % 16);
      HexDumpRoundTrip(raw[1..]);
      assert s[5..] == HexDump(raw[1..]);
      assert s[2] == DigitChar(raw[0] / 16) && s[3] == DigitChar(raw[0] % 16);
    }
  }
}
