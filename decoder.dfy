/** The frame decoder: checks the fixed field of a completed buffer and turns
    it into a reading (sign, six digits, decimal point, unit) or into an
    integrity error that carries the raw buffer and the overrun count. `Line`
    is the text `decode` prints for a buffer. */
module Decoder {
  import opened Frame
  import opened Text

  datatype Option<T> = None | Some(value: T)

  datatype Sign = Plus | Minus

  datatype Unit = Millimetre | Inch

  /** What `decode` makes of a completed buffer. */
  datatype Decoded =
    | Reading(sign: Sign, digits: seq<Byte>, point: Byte, unit: Unit)
    | IntegrityError(raw: seq<Byte>, overruns: Byte)

  /** Slot layout of a frame: 0-3 preamble, 4 sign, 5-10 digits, 11 the
      decimal-point field, 12 the unit. */
  const SignSlot := 4
  const FirstDigitSlot := 5
  const PointSlot := 11
  const UnitSlot := 12

  /** The only decimal-point field value the decoder accepts. */
  const PointCheck := 2

  /** The sign slot value that means "negative". */
  const NegativeSign := 8

  const ErrorPrefix := "data error: sign not at position 2. data = "
  const FlagLabel := ", flag = "

  /** `decode` on a completed buffer; the overrun count only matters for the
      error. */
  function Decode(buf: seq<Byte>, flag: Byte): (r: Decoded)
    requires |buf| == FrameSlots
    ensures r.IntegrityError? <==> buf[PointSlot] != PointCheck
    ensures r.IntegrityError? ==> r.raw == buf && r.overruns == flag
    ensures r.Reading? ==>
              (r.sign == Minus <==> buf[SignSlot] == NegativeSign)
              && |r.digits| == 6 && (forall j :: 0 <= j < 6 ==> r.digits[j] == buf[FirstDigitSlot + j])
              && r.point == PointCheck
              && (r.unit == Millimetre <==> buf[UnitSlot] == 0)
  {
    if buf[PointSlot] != PointCheck then IntegrityError(buf, flag)
    else Reading(if buf[SignSlot] == NegativeSign then Minus else Plus,
                 buf[FirstDigitSlot..PointSlot],
                 buf[PointSlot],
                 if buf[UnitSlot] == 0 then Millimetre else Inch)
  }

  function SignText(s: Sign): string
  {
    if s == Minus then "-" else " "
  }

  function UnitText(u: Unit): string
  {
    if u == Millimetre then " mm\n" else " in\n"
  }

  /** The digit loop of `decode` from the k-th digit on: each digit as `%d`,
      followed by a point when its distance from the last digit equals the
      decimal-point field. */
  function DigitsText(digits: seq<Byte>, point: Byte, k: nat): (t: string)
    requires k <= |digits| == 6
    ensures forall i :: 0 <= i < |t| ==> IsDecimalChar(t[i]) || t[i] == '.'
    ensures '.' in t <==> k + point <= 5
    decreases 6 - k
  {
    if k == 6 then ""
    else Decimal(digits[k]) + (if 5 - k == point then "." else "") + DigitsText(digits, point, k + 1)
  }

  /** The text printed for a decoded buffer. */
  function Render(r: Decoded): (s: string)
    requires r.Reading? ==> |r.digits| == 6
    ensures |s| > 0 && s[|s| - 1] == '\n'
    ensures r.Reading? <==> s[0] == '-' || s[0] == ' '
  {
    match r
    case Reading(s, ds, p, u) =>
      var line := SignText(s) + DigitsText(ds, p, 0) + UnitText(u);
      assert line[0] == SignText(s)[0];
      line
    case IntegrityError(raw, f) =>
      var line := ErrorPrefix + HexDump(raw) + FlagLabel + Decimal(f) + "\n";
      assert line[0] == ErrorPrefix[0] == 'd';
      line
  }

  /** Everything `decode` prints for a buffer and an overrun count. */
  function Line(buf: seq<Byte>, flag: Byte): (l: string)
    requires |buf| == FrameSlots
    ensures |l| > 0 && l[|l| - 1] == '\n'
    ensures l[0] == '-' || l[0] == ' ' <==> buf[PointSlot] == PointCheck
  {
    Render(Decode(buf, flag))
  }

  /** The digits from a to b, each as `%d`, with no point. */
  function Digits(digits: seq<Byte>, a: nat, b: nat): (t: string)
    requires a <= b <= |digits|
    ensures forall i :: 0 <= i < |t| ==> IsDecimalChar(t[i])
    decreases b - a
  {
    if a == b then "" else Decimal(digits[a]) + Digits(digits, a + 1, b)
  }

  /** Past the place of the point, the digit loop prints the digits alone. */
  lemma {:induction false} DigitsTextAfterPoint(digits: seq<Byte>, p: Byte, k: nat)
    requires k <= |digits| == 6
    requires p > 5 || k > 5 - p
    ensures DigitsText(digits, p, k) == Digits(digits, k, 6)
    decreases 6 - k
  {
    if k < 6 {
      DigitsTextAfterPoint(digits, p, k + 1);
    }
  }

  /** Where the digit loop puts the point: with a field value p of at most 5,
      exactly once, after 6 - p digits (from the k-th digit on). */
  lemma {:induction false} DigitsTextPoint(digits: seq<Byte>, p: Byte, k: nat)
    requires k <= |digits| == 6
    requires p <= 5 && k <= 5 - p
    ensures DigitsText(digits, p, k) == Digits(digits, k, 6 - p) + "." + Digits(digits, 6 - p, 6)
    decreases 6 - k, 1
  {
    if k < 5 - p {
      DigitsTextBeforePoint(digits, p, k);
    } else {
      var d := Decimal(digits[k]);
      assert DigitsText(digits, p, k) == d + "." + DigitsText(digits, p, k + 1);
      DigitsTextAfterPoint(digits, p, k + 1);
      assert Digits(digits, k, 6 - p) == d + Digits(digits, k + 1, k + 1);
    }
  }

  /** One digit before the point: it is printed alone, and the rest follows. */
  lemma {:induction false} DigitsTextBeforePoint(digits: seq<Byte>, p: Byte, k: nat)
    requires k <= |digits| == 6
    requires p <= 5 && k < 5 - p
    ensures DigitsText(digits, p, k) == Digits(digits, k, 6 - p) + "." + Digits(digits, 6 - p, 6)
    decreases 6 - k, 0
  {
    DigitsTextUnfold(digits, p, k);
    DigitsUnfold(digits, k, 6 - p);
    DigitsTextPoint(digits, p, k + 1);
    PrependGroup(DigitsText(digits, p, k), DigitsText(digits, p, k + 1),
                 Digits(digits, k, 6 - p), Digits(digits, k + 1, 6 - p),
                 Decimal(digits[k]), Digits(digits, 6 - p, 6));
  }

  /** The digit loop, one digit that is not followed by the point. */
  lemma DigitsTextUnfold(digits: seq<Byte>, p: Byte, k: nat)
    requires k < |digits| == 6 && 5 - k != p
    ensures DigitsText(digits, p, k) == Decimal(digits[k]) + DigitsText(digits, p, k + 1)
  {
  }

  /** `Digits`, one digit. */
  lemma DigitsUnfold(digits: seq<Byte>, a: nat, b: nat)
    requires a < b <= |digits|
    ensures Digits(digits, a, b) == Decimal(digits[a]) + Digits(digits, a + 1, b)
  {
  }

  /** A digit in front of the text on both sides of the point. */
  lemma PrependGroup(t: string, rest: string, before: string, before': string, d: string, after: string)
    requires t == d + rest && rest == before' + "." + after && before == d + before'
    ensures t == before + "." + after
  {
  }

  /** Successful decode: the sign, the six digit slots in order with the point
      after the fourth (slot 8), then the unit; the overrun count plays no
      part. */
  lemma ReadingLine(buf: seq<Byte>, flag: Byte)
    requires |buf| == FrameSlots && buf[PointSlot] == PointCheck
    ensures Line(buf, flag) ==
              (if buf[SignSlot] == NegativeSign then "-" else " ")
              + Decimal(buf[5]) + Decimal(buf[6]) + Decimal(buf[7]) + Decimal(buf[8])
              + "."
              + Decimal(buf[9]) + Decimal(buf[10])
              + (if buf[UnitSlot] == 0 then " mm\n" else " in\n")
  {
    var ds := buf[FirstDigitSlot..PointSlot];
    var sign := if buf[SignSlot] == NegativeSign then "-" else " ";
    var unit := if buf[UnitSlot] == 0 then " mm\n" else " in\n";
    var whole, frac := Digits(ds, 0, 4), Digits(ds, 4, 6);
    assert Line(buf, flag) == sign + (whole + "." + frac) + unit by {
      assert Line(buf, flag) == sign + DigitsText(ds, 2, 0) + unit;
      DigitsTextPoint(ds, 2, 0);
    }
    var d5, d6, d7, d8, d9, d10 :=
      Decimal(buf[5]), Decimal(buf[6]), Decimal(buf[7]), Decimal(buf[8]), Decimal(buf[9]), Decimal(buf[10]);
    assert whole == d5 + (d6 + (d7 + d8)) && frac == d9 + d10 by {
      DigitsSpelled(ds);
      assert ds[0] == buf[5] && ds[1] == buf[6] && ds[2] == buf[7] && ds[3] == buf[8];
      assert ds[4] == buf[9] && ds[5] == buf[10];
    }
    Regroup(sign, d5, d6, d7, d8, d9, d10, unit);
  }

  /** The four digits before the point and the two after it, one by one. */
  lemma DigitsSpelled(ds: seq<Byte>)
    requires |ds| == 6
    ensures Digits(ds, 0, 4) == Decimal(ds[0]) + (Decimal(ds[1]) + (Decimal(ds[2]) + Decimal(ds[3])))
    ensures Digits(ds, 4, 6) == Decimal(ds[4]) + Decimal(ds[5])
  {
    assert Digits(ds, 3, 4) == Decimal(ds[3]) + Digits(ds, 4, 4);
    assert Digits(ds, 2, 4) == Decimal(ds[2]) + Digits(ds, 3, 4);
    assert Digits(ds, 1, 4) == Decimal(ds[1]) + Digits(ds, 2, 4);
    assert Digits(ds, 5, 6) == Decimal(ds[5]) + Digits(ds, 6, 6);
  }

  /** A reading's text depends on the buffer alone, not on the overrun count. */
  lemma ReadingIgnoresFlag(buf: seq<Byte>, flag: Byte, other: Byte)
    requires |buf| == FrameSlots && buf[PointSlot] == PointCheck
    ensures Line(buf, flag) == Line(buf, other)
  {
    ReadingLine(buf, flag);
    ReadingLine(buf, other);
  }

  /** The frame with digit slots 1 2 3 4 5 6, field 2 and unit 0: the point
      comes after the fourth digit, two digits from the right. */
  lemma ExampleReading()
    ensures Line([0, 0, 0, 0, 0, 1, 2, 3, 4, 5, 6, 2, 0], 0) == " 1234.56 mm\n"
  {
    var b: seq<Byte> := [0, 0, 0, 0, 0, 1, 2, 3, 4, 5, 6, 2, 0];
    ReadingLine(b, 0);
    assert b[SignSlot] == 0 && b[UnitSlot] == 0;
    assert Decimal(b[5]) == "1" && Decimal(b[6]) == "2" && Decimal(b[7]) == "3";
    assert Decimal(b[8]) == "4" && Decimal(b[9]) == "5" && Decimal(b[10]) == "6";
    ExampleText();
  }

  /** The pieces of the example line, joined. */
  lemma ExampleText()
    ensures " " + "1" + "2" + "3" + "4" + "." + "5" + "6" + " mm\n" == " 1234.56 mm\n"
  {
    assert " " + "1" + "2" + "3" + "4" == " 1234";
  }

  /** Concatenation regrouped, with nothing else in view. */
  lemma Regroup(s: string, d5: string, d6: string, d7: string, d8: string, d9: string, d10: string, u: string)
    ensures s + ((d5 + (d6 + (d7 + d8))) + "." + (d9 + d10)) + u
            == s + d5 + d6 + d7 + d8 + "." + d9 + d10 + u
  {
  }

  /** Integrity rejection: the line is the error text, then the 13 raw bytes
      dumped in index order, then the overrun count as `%d`, then a newline;
      it reads back to both. */
  lemma ErrorLine(buf: seq<Byte>, flag: Byte)
    requires |buf| == FrameSlots && buf[PointSlot] != PointCheck
    ensures var line := Line(buf, flag);
            var dumpEnd := |ErrorPrefix| + 5 * FrameSlots;
            |line| > dumpEnd + |FlagLabel|
            && line[..|ErrorPrefix|] == ErrorPrefix
            && line[|ErrorPrefix|..dumpEnd] == HexDump(buf)
            && ParseHexDump(line[|ErrorPrefix|..dumpEnd]) == buf
            && line[dumpEnd..dumpEnd + |FlagLabel|] == FlagLabel
            && line[dumpEnd + |FlagLabel|..|line| - 1] == Decimal(flag)
            && DecimalValue(line[dumpEnd + |FlagLabel|..|line| - 1]) == flag
            && line[|line| - 1] == '\n'
  {
    var dump, count := HexDump(buf), Decimal(flag);
    assert Line(buf, flag) == ErrorPrefix + dump + FlagLabel + count + "\n";
    FiveParts(ErrorPrefix, dump, FlagLabel, count, "\n");
    HexDumpRoundTrip(buf);
    DecimalRoundTrip(flag);
  }

  /** The five parts of a concatenation, read back by position. */
  lemma FiveParts(a: string, b: string, c: string, d: string, e: string)
    ensures var x := a + b + c + d + e;
            var i, j, k := |a|, |a| + |b|, |a| + |b| + |c|;
            |x| == k + |d| + |e|
            && x[..i] == a && x[i..j] == b && x[j..k] == c
            && x[k..k + |d|] == d && x[k + |d|..] == e
  {
    var x := a + b + c + d + e;
    var i, j, k := |a|, |a| + |b|, |a| + |b| + |c|;
    assert x[..i] == a;
    assert x[i..j] == b;
    assert x[j..k] == c;
    assert x[k..k + |d|] == d;
    assert x[k + |d|..] == e;
  }

  /** A line the host can tell for a reading: it starts with the sign. */
  predicate IsReadingLine(line: string)
  {
    |line| > 0 && (line[0] == '-' || line[0] == ' ')
  }

  /** A line begins like a reading exactly when the fixed field checks out,
      and the line of a rejected frame does not read back as any reading. */
  lemma ReadingIffChecked(buf: seq<Byte>, flag: Byte)
    requires |buf| == FrameSlots
    ensures IsReadingLine(Line(buf, flag)) <==> buf[PointSlot] == PointCheck
    ensures buf[PointSlot] != PointCheck ==> ParseReading(Line(buf, flag)) == None
  {
    if buf[PointSlot] != PointCheck {
      ErrorLine(buf, flag);
    }
  }

  /** Reads a reading line back, as a host would. */
  function ParseReading(line: string): Option<Decoded>
  {
    if |line| == 12 && (line[0] == '-' || line[0] == ' ') && line[5] == '.'
       && (line[8..] == " mm\n" || line[8..] == " in\n")
    then
      Some(Reading(if line[0] == '-' then Minus else Plus,
                   [DigitValue(line[1]), DigitValue(line[2]), DigitValue(line[3]),
                    DigitValue(line[4]), DigitValue(line[6]), DigitValue(line[7])],
                   PointCheck,
                   if line[8..] == " mm\n" then Millimetre else Inch))
    else None
  }

  /** Reading back a line of single-character digits, by position. */
  lemma ParseShortLine(s: string, c: seq<char>, u: string)
    requires s == "-" || s == " "
    requires |c| == 6
    requires u == " mm\n" || u == " in\n"
    ensures ParseReading(s + [c[0]] + [c[1]] + [c[2]] + [c[3]] + "." + [c[4]] + [c[5]] + u)
            == Some(Reading(if s == "-" then Minus else Plus,
                            [DigitValue(c[0]), DigitValue(c[1]), DigitValue(c[2]),
                             DigitValue(c[3]), DigitValue(c[4]), DigitValue(c[5])],
                            PointCheck,
                            if u == " mm\n" then Millimetre else Inch))
  {
    var line := s + [c[0]] + [c[1]] + [c[2]] + [c[3]] + "." + [c[4]] + [c[5]] + u;
    assert line[8..] == u;
  }

  /** A reading whose digit slots hold decimal digits is printed without loss:
      the line reads back as the same sign, digits and unit. */
  lemma ReadingRoundTrip(buf: seq<Byte>, flag: Byte)
    requires |buf| == FrameSlots && buf[PointSlot] == PointCheck
    requires forall i :: FirstDigitSlot <= i < PointSlot ==> buf[i] < 10
    ensures ParseReading(Line(buf, flag)) == Some(Decode(buf, flag))
  {
    var sign := if buf[SignSlot] == NegativeSign then "-" else " ";
    var unit := if buf[UnitSlot] == 0 then " mm\n" else " in\n";
    var c := [DigitChar(buf[5]), DigitChar(buf[6]), DigitChar(buf[7]),
              DigitChar(buf[8]), DigitChar(buf[9]), DigitChar(buf[10])];
    SingleDigit(buf[5]);
    SingleDigit(buf[6]);
    SingleDigit(buf[7]);
    SingleDigit(buf[8]);
    SingleDigit(buf[9]);
    SingleDigit(buf[10]);
    assert Line(buf, flag) == sign + [c[0]] + [c[1]] + [c[2]] + [c[3]] + "." + [c[4]] + [c[5]] + unit by {
      ReadingLine(buf, flag);
    }
    ParseShortLine(sign, c, unit);
    DigitSlots(buf);
  }

  /** The six digit slots, spelled out. */
  lemma DigitSlots(buf: seq<Byte>)
    requires |buf| == FrameSlots
    ensures buf[FirstDigitSlot..PointSlot] == [buf[5], buf[6], buf[7], buf[8], buf[9], buf[10]]
  {
  }
}
