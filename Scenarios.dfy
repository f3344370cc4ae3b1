/** Client code exercising LinkedNumber: the conversions of the program's
    demonstration driver, the digit edits at each kind of position, and the
    general round trip through another base. */
module Scenarios {
  import opened Numerals
  import opened LinkedNumbers

  /** Builds the numeral num in base b and converts it to base nb. */
  method ConvertDigits(num: string, b: int, nb: int) returns (s: string)
    requires |num| > 0 && 2 <= nb <= 16
    requires ValidIn(num, b) && AllDecimal(num) && Value(num, b) <= IntMax
    ensures Value(num, b) >= 0 && s == ToBase(Value(num, b), nb)
    ensures ValidIn(s, nb) && Canonical(s) && Value(s, nb) == Value(num, b)
  {
    var ln := new LinkedNumber.FromString(num, b);
    var r := ln.Convert(nb);
    s := r.value.ToString();
    ToBaseCorrect(Value(num, b), nb);
  }

  /** Converts num from base b to base nb, given that out is a canonical
      numeral in base nb with the same value. */
  method ConvertTo(num: string, b: int, nb: int, ghost out: string) returns (s: string)
    requires |num| > 0 && 2 <= nb <= 16
    requires ValidIn(num, b) && AllDecimal(num) && Value(num, b) <= IntMax
    requires ValidIn(out, nb) && Canonical(out) && Value(out, nb) == Value(num, b)
    ensures s == out
  {
    s := ConvertDigits(num, b, nb);
    CanonicalValueUnique(s, out, nb);
  }

  /** The numerals of the examples: which digits they use, and their
      values. */
  lemma Binary237Digits()
    ensures ValidIn("11101101", 2) && AllDecimal("11101101")
  {
  }

  lemma Binary237Value()
    ensures Value("11101101", 2) == 237
  {
  }

  lemma Decimal237Digits()
    ensures ValidIn("237", 10) && Canonical("237")
  {
  }

  lemma Decimal237Value()
    ensures Value("237", 10) == 237
  {
  }

  lemma Hex237Digits()
    ensures ValidIn("ED", 16) && Canonical("ED")
  {
  }

  lemma Hex237Value()
    ensures Value("ED", 16) == 237
  {
  }

  lemma Ternary2771Digits()
    ensures ValidIn("10210122", 3) && AllDecimal("10210122")
  {
  }

  lemma Ternary2771Value()
    ensures Value("10210122", 3) == 2771
  {
  }

  lemma Decimal2771Digits()
    ensures ValidIn("2771", 10) && Canonical("2771")
  {
  }

  lemma Decimal2771Value()
    ensures Value("2771", 10) == 2771
  {
  }

  lemma Quaternary59345Digits()
    ensures ValidIn("32133101", 4) && AllDecimal("32133101")
  {
  }

  lemma Quaternary59345Value()
    ensures Value("32133101", 4) == 59345
  {
  }

  lemma Decimal59345Digits()
    ensures ValidIn("59345", 10) && Canonical("59345")
  {
  }

  lemma Decimal59345Value()
    ensures Value("59345", 10) == 59345
  {
  }

  lemma Binary42069Digits()
    ensures ValidIn("1010010001010101", 2) && Canonical("1010010001010101") && AllDecimal("1010010001010101")
  {
  }

  /** Sixteen digits are read as two bytes: 164 * 256 + 85. */
  lemma Binary42069Value()
    ensures Value("1010010001010101", 2) == 42069
  {
    assert "1010010001010101" == "10100100" + "01010101";
    ValueConcat("10100100", "01010101", 2);
    HighByteValue();
    LowByteValue();
  }

  lemma HighByteValue()
    ensures Value("10100100", 2) == 164
  {
  }

  lemma LowByteValue()
    ensures Value("01010101", 2) == 85 && Pow(2, 8) == 256
  {
  }

  lemma Decimal42069Digits()
    ensures ValidIn("42069", 10) && Canonical("42069") && AllDecimal("42069")
  {
  }

  lemma Decimal42069Value()
    ensures Value("42069", 10) == 42069
  {
  }

  method BinaryToDecimal() returns (s: string)
    ensures s == "237"
  {
    Binary237Digits();
    Binary237Value();
    Decimal237Digits();
    Decimal237Value();
    s := ConvertTo("11101101", 2, 10, "237");
  }

  method TernaryToDecimal() returns (s: string)
    ensures s == "2771"
  {
    Ternary2771Digits();
    Ternary2771Value();
    Decimal2771Digits();
    Decimal2771Value();
    s := ConvertTo("10210122", 3, 10, "2771");
  }

  method QuaternaryToDecimal() returns (s: string)
    ensures s == "59345"
  {
    Quaternary59345Digits();
    Quaternary59345Value();
    Decimal59345Digits();
    Decimal59345Value();
    s := ConvertTo("32133101", 4, 10, "59345");
  }

  /** Two bases other than ten go through base ten. */
  method BinaryToHex() returns (s: string)
    ensures s == "ED"
  {
    Binary237Digits();
    Binary237Value();
    Hex237Digits();
    Hex237Value();
    s := ConvertTo("11101101", 2, 16, "ED");
  }

  method DecimalToBinary() returns (s: string)
    ensures s == "1010010001010101"
  {
    Binary42069Digits();
    Binary42069Value();
    Decimal42069Digits();
    Decimal42069Value();
    s := ConvertTo("42069", 10, 2, "1010010001010101");
  }

  /** Converting a decimal number to base 10 leaves its digits as they are. */
  method DecimalToDecimal() returns (s: string)
    ensures s == "42069"
  {
    Binary42069Digits();
    Binary42069Value();
    Decimal42069Digits();
    Decimal42069Value();
    s := ConvertTo("42069", 10, 10, "42069");
  }

  method LongBinaryToDecimal() returns (s: string)
    ensures s == "42069"
  {
    Binary42069Digits();
    Binary42069Value();
    Decimal42069Digits();
    Decimal42069Value();
    s := ConvertTo("1010010001010101", 2, 10, "42069");
  }

  /** Renders any numeral valid in a base up to ten in another such base and
      back: the digits come back unchanged when they had no leading zero. */
  method ConvertThereAndBack(ln: LinkedNumber, nb: int) returns (back: string)
    requires ln.Valid() && 2 <= ln.base <= 10 && 2 <= nb <= 10
    requires ValidIn(ln.Digits, ln.base) && Canonical(ln.Digits)
    requires Value(ln.Digits, ln.base) <= IntMax
    ensures back == ln.Digits
  {
    ValidBelowTenIsDecimal(ln.Digits, ln.base);
    var r := ln.Convert(nb);
    var t := r.value;
    ConvertRoundTrip(ln.Digits, ln.base, nb);
    ToBaseCorrect(Value(ln.Digits, ln.base), nb);
    ValidBelowTenIsDecimal(t.Digits, nb);
    var s := t.Convert(ln.base);
    back := s.value.ToString();
  }

  /** Converting straight to nb gives the same digits as converting to
      base ten first and then to nb. */
  method TwoHops(ln: LinkedNumber, nb: int) returns (direct: string, twoStep: string)
    requires ln.Valid() && 2 <= nb <= 16
    requires ValidIn(ln.Digits, ln.base) && AllDecimal(ln.Digits)
    requires Value(ln.Digits, ln.base) <= IntMax
    ensures direct == twoStep
  {
    var r := ln.Convert(nb);
    direct := r.value.ToString();
    var d := ln.Convert(10);
    ViaDecimal(Value(ln.Digits, ln.base), nb);
    DecimalIsValidInTen(d.value.Digits);
    var t := d.value.Convert(nb);
    twoStep := t.value.ToString();
  }

  /** Converting 1010010001010101 in base 2 to base 10 and back to base 2
      restores the digits. */
  method BinaryRoundTrip() returns (s: string)
    ensures s == "1010010001010101"
  {
    var ln := new LinkedNumber.FromString("1010010001010101", 2);
    Binary42069Digits();
    Binary42069Value();
    Decimal42069Digits();
    Decimal42069Value();
    s := ConvertThereAndBack(ln, 10);
  }

  /** Converting a base-2 number to base 2 goes through base ten and keeps
      its digits. */
  method BinaryToBinary() returns (s: string)
    ensures s == "1010010001010101"
  {
    Binary42069Digits();
    Binary42069Value();
    s := ConvertTo("1010010001010101", 2, 2, "1010010001010101");
  }

  /** A digit outside the base makes the conversion fail. */
  method InvalidDigit() returns (r: Result<LinkedNumber>)
    ensures r == Err(InvalidNumber)
  {
    var ln := new LinkedNumber.FromString("12", 2);
    assert DigitValue("12"[1]) == 2;
    r := ln.Convert(10);
  }

  /** An empty digit string is refused. */
  method EmptyString() returns (r: Result<LinkedNumber>)
    ensures r == Err(EmptyInput)
  {
    r := LinkedNumber.Create("", 10);
  }

  /** Builds num in base b, adds digit at position, and reads the digits. */
  method AddTo(num: string, b: int, digit: char, position: nat) returns (o: Outcome, s: string)
    requires |num| > 0
    ensures position < |num| ==> o == Pass && s == AfterAdd(num, digit, position)
    ensures position >= |num| ==> o == Fail(InvalidPosition) && s == num
  {
    var ln := new LinkedNumber.FromString(num, b);
    o := ln.AddDigit(digit, position);
    s := ln.ToString();
  }

  /** Builds num in base b, removes the digit at position, and reads the
      digits. */
  method RemoveFrom(num: string, b: int, position: nat) returns (r: Result<int>, s: string)
    requires |num| > 0 && (position == 0 ==> |num| >= 3)
    ensures position < |num| ==> r == Ok(1) && s == AfterRemove(num, position)
    ensures position >= |num| ==> r == Err(InvalidPosition) && s == num
  {
    var ln := new LinkedNumber.FromString(num, b);
    r := ln.RemoveDigit(position);
    s := ln.ToString();
  }

  /** Adding to 123 at the front, at the last position, between the ends
      and past the end. */
  method AddDigits() returns (a: string, b: string, c: string, d: Outcome, e: string)
    ensures a == "9123" && b == "1239" && c == "123" && d == Fail(InvalidPosition) && e == "123"
  {
    var o;
    o, a := AddTo("123", 10, '9', 0);
    o, b := AddTo("123", 10, '9', 2);
    o, c := AddTo("123", 10, '9', 1);
    d, e := AddTo("123", 10, '9', 3);
  }

  /** Removing from 1010 at position 0, at the last position, between the
      ends and past the end; every success returns 1. */
  method RemoveDigits() returns (a: string, b: string, c: string, d: Result<int>, e: string, v: Result<int>)
    ensures a == "101" && b == "010" && c == "1010" && d == Err(InvalidPosition) && e == "1010" && v == Ok(1)
  {
    var o;
    v, a := RemoveFrom("1010", 2, 0);
    o, b := RemoveFrom("1010", 2, 3);
    o, c := RemoveFrom("1010", 2, 1);
    d, e := RemoveFrom("1010", 2, 4);
  }

  /** Adds d at the front of num and then removes the digit at the last
      position of the same number, which gives num back. */
  method UndoFrontAdd(num: string, b: int, d: char) returns (o: Outcome, r: Result<int>, s: string)
    requires |num| >= 1
    ensures o == Pass && r == Ok(1) && s == num
  {
    var ln := new LinkedNumber.FromString(num, b);
    o := ln.AddDigit(d, 0);
    RemoveUndoesAdd(num, d);
    r := ln.RemoveDigit(|num|);
    s := ln.ToString();
  }

  /** Adds d at the last position of num and then removes the digit at
      position 0 of the same number, which gives num back. */
  method UndoRearAdd(num: string, b: int, d: char) returns (o: Outcome, r: Result<int>, s: string)
    requires |num| >= 2
    ensures o == Pass && r == Ok(1) && s == num
  {
    var ln := new LinkedNumber.FromString(num, b);
    o := ln.AddDigit(d, |num| - 1);
    RemoveUndoesAdd(num, d);
    r := ln.RemoveDigit(0);
    s := ln.ToString();
  }

  /** On 123, adding 9 at the front and removing at position 3, or adding 9
      at position 2 and removing at position 0, leaves 123. */
  method AddThenRemove() returns (s: string, t: string)
    ensures s == "123" && t == "123"
  {
    var o, r;
    o, r, s := UndoFrontAdd("123", 10, '9');
    o, r, t := UndoRearAdd("123", 10, '9');
  }

  /** equals is reflexive and symmetric. */
  method EqualsProperties(x: LinkedNumber, y: LinkedNumber) returns (refl: bool, xy: bool, yx: bool)
    requires x.Valid() && y.Valid()
    ensures refl && xy == yx
  {
    refl := x.Equals(x);
    xy := x.Equals(y);
    yx := y.Equals(x);
  }
}
