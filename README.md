# LinkedNumber in Dafny

A model of `LinkedNumber` from `src/LinkedNumber.java`. The class stores a
numeral in some base as a doubly-linked chain of digit nodes. `front` holds
the most significant digit and `rear` the least significant. The class
offers:

- construction from a string and from an `int`;
- digit-range validation;
- digit count, rendering and equality;
- base conversion through base ten;
- the two positional mutators `addDigit` and `removeDigit`.

The project has three modules.

- `Numerals` (`Numerals.dfy`) is the arithmetic the class relies on:
  - the digit alphabet `0123456789ABCDEF` and the value of each digit;
  - `Pow`;
  - the positional value `Value(s, b)` of a digit string;
  - the repeated-remainder extraction `Extract` and its rendering `ToBase`,
    which gives `"0"` for zero.
  
  Its lemmas prove:
  - `ToBase` renders a value with no leading zero, using only digits below
    the base, and with the right positional value;
  - a canonical numeral is the one rendering of its own value;
  - going through base ten renders the same numeral as converting directly.
- `LinkedNumbers` (`LinkedNumber.dfy`) holds the classes `DLNode` and
  `LinkedNumber`. A `LinkedNumber` keeps the real fields `base`, `front` and
  `rear`, plus two ghost fields:
  - `Nodes`, the chain from front to rear;
  - `Digits`, the characters the chain holds.
  
  `Valid()` is the chain invariant:
  - there is one distinct node per digit, in order;
  - `front.prev == null` and `rear.next == null`;
  - every `next` is matched by a `prev`.
  
  The constructor and the two mutators splice nodes step by step, as the
  Java does, and keep `Valid()`. Each query walks the chain with a loop and
  is proved against `Digits`. `AfterAdd` and `AfterRemove` state which
  digit string each mutator leaves behind.
- `Scenarios` (`Scenarios.dfy`) is client code. It covers:
  - the conversions in the demonstration driver;
  - the digit edits at each kind of position;
  - equality;
  - the general round trip through another base.

A digit is a `char`. Its value is its index in `"0123456789ABCDEF"`, and it
is -1 for any other character. `Digit`'s own source is not part of this
model. Upper-case letters are the only ones the Java alphabet holds.

The model follows the code as written. In particular:

- `addDigit` counts positions from the front. Position 0 adds a new front,
  and position n-1 adds a new rear.
- `removeDigit`'s two ends agree with counting from the rear. Position 0
  removes the rear, and position n-1 removes the front. The comment at
  src/LinkedNumber.java:228-231 uses the same convention.
- Every interior position of either method leaves the digits as they are. The walk
  loop's splice sits under `if (counter == position)` inside
  `while (counter != position)`, so it never runs.
- `removeDigit` returns 1, not the place-weighted digit value its comment
  describes.
- Out-of-range bases are not reported as an error.
- Conversion reads each digit with `Integer.parseInt`, so a numeral with
  the digits `A`–`F` cannot be converted.
- The chain can never become empty. Removing the only digit dereferences
  null.

## Model

| member | source | states |
|---|---|---|
| LinkedNumbers.LinkedNumber.FromString | src/LinkedNumber.java:12-34 | builds a valid chain with one fresh node per character, in input order; base and digits are the inputs; a single digit is both front and rear |
| LinkedNumbers.LinkedNumber.Create | src/LinkedNumber.java:7-36 | an empty string fails with EmptyInput; any other string gives a new valid number holding exactly those digits in the given base |
| LinkedNumbers.LinkedNumber.FromInt | src/LinkedNumber.java:38-40 | a non-negative int gives a base-ten number whose digits are its canonical decimal rendering and whose value is the int |
| LinkedNumbers.LinkedNumber.IsValidNumber | src/LinkedNumber.java:42-57 | true exactly when every digit's value lies in 0..base-1 |
| LinkedNumbers.LinkedNumber.GetBase | src/LinkedNumber.java:59-61 | returns the base |
| LinkedNumbers.LinkedNumber.GetFront | src/LinkedNumber.java:63-65 | returns the first node, which has no predecessor and holds the most significant digit |
| LinkedNumbers.LinkedNumber.GetRear | src/LinkedNumber.java:67-69 | returns the last node, which has no successor and holds the least significant digit |
| LinkedNumbers.LinkedNumber.GetNumDigits | src/LinkedNumber.java:71-79 | the count of nodes walked is the number of digits |
| LinkedNumbers.LinkedNumber.ToString | src/LinkedNumber.java:81-89 | the rendering is the digit string, front to rear |
| LinkedNumbers.LinkedNumber.Equals | src/LinkedNumber.java:91-98 | true exactly when the bases and the digit strings are equal |
| LinkedNumbers.LinkedNumber.Convert | src/LinkedNumber.java:100-118 | an invalid number fails with InvalidNumber; a valid one gives a fresh valid number in newBase whose digits are the canonical rendering of the same value; this is not modified |
| LinkedNumbers.LinkedNumber.DecimalToNewBase | src/LinkedNumber.java:120-138 | the result renders the decimal value in newBase with no leading zero, only digits below newBase, and the same positional value ("0" for zero) |
| LinkedNumbers.LinkedNumber.AnyBaseToDecimal | src/LinkedNumber.java:140-150 | the result is the canonical decimal rendering of the sum of value(d_i) * base^(n-1-i) |
| LinkedNumbers.LinkedNumber.PowerOf | src/LinkedNumber.java:152-158 | b^exp for exp >= 0, and 1 for a negative exp |
| LinkedNumbers.LinkedNumber.AddDigit | src/LinkedNumber.java:161-193 | a position past the last digit fails with InvalidPosition and changes nothing; otherwise the chain stays valid and holds AfterAdd of the old digits; every node in the new chain is an old node or a new one, so the number can be edited again |
| LinkedNumbers.LinkedNumber.LinkFront | src/LinkedNumber.java:169-173 | a detached node becomes the new front; the chain stays valid with that digit prepended |
| LinkedNumbers.LinkedNumber.LinkRear | src/LinkedNumber.java:175-179 | a detached node becomes the new rear; the chain stays valid with that digit appended |
| LinkedNumbers.LinkedNumber.RemoveDigit | src/LinkedNumber.java:195-236 | a position past the last digit fails with InvalidPosition and changes nothing; otherwise the chain stays valid, holds AfterRemove of the old digits, and the result is 1; every remaining node is an old node, so the number can be edited again |
| LinkedNumbers.LinkedNumber.UnlinkRear | src/LinkedNumber.java:204-208 | the rear's predecessor becomes the rear; the chain stays valid with its last digit dropped |
| LinkedNumbers.LinkedNumber.UnlinkFront | src/LinkedNumber.java:210-215 | the front's successor becomes the front; the chain stays valid with its first digit dropped |
| LinkedNumbers.AddFrontValue | src/LinkedNumber.java:169-173 | adding at position 0 puts the digit first, at the highest place: the value grows by value(d) * b^n |
| LinkedNumbers.AddRearValue | src/LinkedNumber.java:175-179 | adding at the last position appends the digit as the units digit: the new value is old * b + value(d) |
| LinkedNumbers.RemoveRearValue | src/LinkedNumber.java:204-208 | removing at position 0 drops the units digit: old value = new value * b + the dropped digit |
| LinkedNumbers.RemoveFrontValue | src/LinkedNumber.java:210-215 | removing at the last position drops the leading digit and its place value |
| LinkedNumbers.RemoveUndoesAdd | src/LinkedNumber.java:161-215 | removing at the last position undoes adding at the front; removing at position 0 undoes adding at the last position |
| Numerals.DigitValue | src/LinkedNumber.java:122 | a digit's value is -1 or an index into the alphabet that holds that character |
| Numerals.DecimalIsValidInTen | src/LinkedNumber.java:125 | a string of the characters 0-9 is exactly a string valid in base ten |
| Numerals.ValidBelowTenIsDecimal | src/LinkedNumber.java:146 | a numeral valid in a base up to ten uses only the characters 0-9 |
| Numerals.PowPositive | src/LinkedNumber.java:152-158 | a positive base has positive powers |
| Numerals.ValueNonNegative | src/LinkedNumber.java:140-150 | the positional value of a valid numeral is not negative |
| Numerals.ValueSuffix | src/LinkedNumber.java:145-147 | each summation step adds the current digit's place value to the value of the rest |
| Numerals.ValueAppend | src/LinkedNumber.java:131-135 | appending a digit multiplies the value by the base and adds the digit |
| Numerals.ValueConcat | src/LinkedNumber.java:140-150 | the value of a concatenation is the left part shifted by the right part's length, plus the right part |
| Numerals.ExtractStep | src/LinkedNumber.java:131-135 | one round of the extraction loop keeps the digits collected so far plus those still to come equal to the full extraction |
| Numerals.ExtractValue | src/LinkedNumber.java:131-135 | the extracted digits have the extracted number as their value |
| Numerals.ExtractValid | src/LinkedNumber.java:131-135 | the extracted digits all lie below the base |
| Numerals.ExtractLeading | src/LinkedNumber.java:127-135 | extracting a positive number gives a non-empty string with no leading zero |
| Numerals.ToBaseCorrect | src/LinkedNumber.java:120-138 | the rendering of n in base b has value n, only digits below b, and no leading zero |
| Numerals.ExtractOfValue | src/LinkedNumber.java:131-135 | the extraction of a valid numeral's value gives back the numeral when it has no leading zero |
| Numerals.ToBaseOfValue | src/LinkedNumber.java:120-138 | a canonical numeral is the rendering of its own value |
| Numerals.CanonicalValueUnique | src/LinkedNumber.java:91-98 | two canonical numerals in the same base have equal digits exactly when they have equal values |
| Numerals.ConvertRoundTrip | src/LinkedNumber.java:100-118 | rendering a canonical numeral's value in another base and back in the original base gives the numeral back |
| Numerals.ViaDecimal | src/LinkedNumber.java:111-114 | rendering through base ten gives the same numeral as rendering directly in the target base |
| Scenarios.ConvertDigits | src/LinkedNumber.java:100-118 | converting a numeral gives its canonical rendering in the new base with the same value |
| Scenarios.ConvertTo | src/LinkedNumber.java:100-118 | converting a numeral gives any canonical numeral of equal value in the new base |
| Scenarios.BinaryToDecimal | src/LinkedNumber.java:252-255 | 11101101 in base 2 converts to 237 |
| Scenarios.TernaryToDecimal | src/LinkedNumber.java:253-256 | 10210122 in base 3 converts to 2771 |
| Scenarios.QuaternaryToDecimal | src/LinkedNumber.java:254-257 | 32133101 in base 4 converts to 59345 |
| Scenarios.BinaryToHex | src/LinkedNumber.java:111-114 | 11101101 in base 2 converts to ED in base 16, through base ten |
| Scenarios.DecimalToBinary | src/LinkedNumber.java:240-242 | 42069 in base 10 converts to 1010010001010101 in base 2 |
| Scenarios.DecimalToDecimal | src/LinkedNumber.java:240-243 | converting 42069 in base 10 to base 10 leaves its digits as they are |
| Scenarios.LongBinaryToDecimal | src/LinkedNumber.java:245-247 | 1010010001010101 in base 2 converts to 42069 |
| Scenarios.ConvertThereAndBack | src/LinkedNumber.java:240-248 | a canonical numeral in a base up to ten, converted to another such base and back, keeps its digits |
| Scenarios.BinaryRoundTrip | src/LinkedNumber.java:245-247 | 1010010001010101 converted to base 10, and that result converted back to base 2, keeps its digits |
| Scenarios.BinaryToBinary | src/LinkedNumber.java:248 | the driver converts the original base-2 number to base 2; that passes through base ten and keeps the digits 1010010001010101 |
| Scenarios.TwoHops | src/LinkedNumber.java:111-114 | converting straight to a base gives the same digits as converting to base ten and then to that base |
| Scenarios.InvalidDigit | src/LinkedNumber.java:101-103 | 12 in base 2 fails with InvalidNumber |
| Scenarios.EmptyString | src/LinkedNumber.java:9 | the empty string fails with EmptyInput |
| Scenarios.AddTo | src/LinkedNumber.java:161-193 | a client sees AfterAdd of its digits, or InvalidPosition with the digits unchanged |
| Scenarios.RemoveFrom | src/LinkedNumber.java:195-236 | a client sees AfterRemove of its digits with result 1, or InvalidPosition with the digits unchanged |
| Scenarios.AddDigits | src/LinkedNumber.java:161-193 | on 123, adding 9 at 0 gives 9123, at 2 gives 1239, at 1 gives 123, and at 3 fails leaving 123 |
| Scenarios.RemoveDigits | src/LinkedNumber.java:195-236 | on 1010, removing at 0 gives 101, at 3 gives 010, at 1 gives 1010, and at 4 fails leaving 1010; a success returns 1 |
| Scenarios.UndoFrontAdd | src/LinkedNumber.java:161-236 | on one number, adding a digit at position 0 and then removing at the last position succeeds twice, returns 1 and leaves the original digits |
| Scenarios.UndoRearAdd | src/LinkedNumber.java:161-236 | on one number of two or more digits, adding a digit at the last position and then removing at position 0 succeeds twice, returns 1 and leaves the original digits |
| Scenarios.AddThenRemove | src/LinkedNumber.java:161-236 | on 123, adding 9 at 0 and removing at 3, or adding 9 at 2 and removing at 0, gives 123 back |
| Scenarios.EqualsProperties | src/LinkedNumber.java:91-98 | equals is reflexive and symmetric |

## Left out

- The `main` driver (src/LinkedNumber.java:238-258) only prints. Its example inputs appear as the methods in `Scenarios`.
- `LinkedNumberException` (src/LinkedNumberException.java) becomes the `Error` datatype. A method that throws returns an `Err` or `Fail` value instead.
- `Digit` and `DLNode` are not part of this model beyond what `LinkedNumber` uses. A digit is a character with a value. A node has an element, `prev` and `next`.
- Java's 32-bit `int` arithmetic is not modelled. Values are mathematical integers.
  - Preconditions keep the parsed decimal value and the summed total within `Integer.MAX_VALUE`.
  - The powers inside the sum at src/LinkedNumber.java:146 are not bounded. Take the 40-digit base-2 numeral `000…01`, whose value is 1. In Java, `powerOf(2, 39)` wraps and reaches 0 after the 32nd multiplication.
  - The total is still right in Java on every input the preconditions admit. Java's int `+` and `*` are exact modulo 2^32, so a total that fits comes out right.
- LinkedNumbers.LinkedNumber.PowerOf: stated over unbounded ints. Java's `powerOf` returns b^exp reduced modulo 2^32 to a signed int, so `powerOf(2, 31)` is `Integer.MIN_VALUE` in Java but 2^31 in the model.
- Paths where the code crashes are excluded by preconditions:
  - a negative position, whose walk runs off the chain;
  - `removeDigit(0)` on one or two digits, which dereferences null;
  - letters reaching `Integer.parseInt`.
- `removeDigit`'s comment describes a place-weighted return value. The code returns 1, and the model states only that.
- LinkedNumbers.LinkedNumber.FromInt: requires a non-negative int. For a negative int the code neither crashes nor loops: `String.valueOf` gives a leading `'-'`, which becomes an ordinary digit node (src/LinkedNumber.java:39).
- LinkedNumbers.LinkedNumber.Convert: requires `newBase` in 2..16 on every path. Outside that range the code does the following for a non-zero value:
  - `newBase` 1 loops forever;
  - `newBase` 0 divides by zero;
  - a `newBase` above 16 fails only when a remainder passes 15;
  - a `newBase` from -16 to -1 returns digits without failing. Base-10 `"5"` with `newBase` -2 gives `"1"`, since Java's `5 % -2` is 1 and `5 / -2` is -2;
  - a `newBase` below -16 fails, like a base above 16, when a remainder passes 15. Base-10 `"16"` with `newBase` -17 fails, since Java's `16 % -17` is 16.
  
  For a zero value the code returns `"0"` in any base.
- LinkedNumbers.LinkedNumber.AnyBaseToDecimal: requires the total to be non-negative. It is non-negative for every valid number, but a negative base could make it negative, and the code would then render a `'-'`.
- LinkedNumbers.LinkedNumber.DecimalToNewBase: models `Integer.parseInt` of the rendering as the positional value in base ten. Parsing signs and overflow are out of scope.
- LinkedNumbers.LinkedNumber.FromString: requires a non-empty string. The empty-string exception is modelled by `Create`.
