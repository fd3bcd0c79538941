/** The catalog code `XXnnnnnnYYv` of pkg/barcode/barcode.go: a two-letter
    upper-cased category prefix, the item id zero-padded to six digits, the
    year modulo 100 as two digits, and a weighted mod-10 check digit computed
    over the raw character codes of the first ten characters. Strings are byte
    sequences; the clock is the `year` parameter. */
module Barcode {

  import opened Common

  newtype byte = b: int | 0 <= b < 256

  /** Length of a complete code and of its base (the code without its check digit). */
  const CodeLength: nat := 11
  const BaseLength: nat := 10

  /** ASCII codes of '0' and '-'. */
  const DigitZero: byte := 48
  const MinusSign: byte := 45

  datatype Error = CategoryNameTooShort

  predicate IsAscii(s: seq<byte>) {
    forall i :: 0 <= i < |s| ==> s[i] < 128
  }

  predicate IsUpperLetter(b: byte) { 65 <= b <= 90 }

  predicate IsDigit(b: byte) { 48 <= b <= 57 }

  predicate AllDigits(s: seq<byte>) {
    forall i :: 0 <= i < |s| ==> IsDigit(s[i])
  }

  /** `strings.ToUpper` on one ASCII character: only 'a'..'z' change. */
  function ToUpperByte(b: byte): byte {
    if 97 <= b <= 122 then b - 32 else b
  }

  /** `strings.ToUpper` on an ASCII string. */
  function Upper(s: seq<byte>): seq<byte> {
    seq(|s|, i requires 0 <= i < |s| => ToUpperByte(s[i]))
  }

  /** Upper-casing commutes with taking a prefix, so `Generate` may take the
      first two characters before or after upper-casing. */
  lemma UpperPrefix(s: seq<byte>, n: nat)
    requires n <= |s|
    ensures |Upper(s)| == |s|
    ensures Upper(s)[..n] == Upper(s[..n])
  {
  }

  /** Upper-casing twice is upper-casing once. */
  lemma UpperIdempotent(s: seq<byte>)
    ensures Upper(Upper(s)) == Upper(s)
  {
  }

  // ---------------------------------------------------------------------------
  // Decimal formatting (`fmt.Sprintf("%0Nd", n)`) and its inverse on digit strings

  function DigitChar(d: int): byte
    requires 0 <= d <= 9
  {
    (48 + d) as byte
  }

  /** `%d` of a non-negative number: no leading zeros, "0" for zero. */
  function DecimalDigits(n: nat): (r: seq<byte>)
    ensures 1 <= |r| && AllDigits(r)
  {
    if n < 10 then [DigitChar(n)] else DecimalDigits(n / 10) + [DigitChar(n % 10)]
  }

  /** Left-pads with '0' up to `width`; never truncates. */
  function ZeroFill(d: seq<byte>, width: nat): (r: seq<byte>)
    ensures |r| == if |d| >= width then |d| else width
  {
    if |d| >= width then d else seq(width - |d|, _ => DigitZero) + d
  }

  /** `fmt.Sprintf("%0<width>d", n)`: for a negative number the sign counts
      towards the width and the zeros go after it. */
  function FormatInt(n: int, width: nat): seq<byte> {
    if n >= 0 then ZeroFill(DecimalDigits(n), width)
    else [MinusSign] + ZeroFill(DecimalDigits(-n), if width > 0 then width - 1 else 0)
  }

  /** The number a string of decimal digits denotes. */
  function DigitsValue(s: seq<byte>): nat
    requires AllDigits(s)
  {
    if |s| == 0 then 0 else DigitsValue(s[..|s| - 1]) * 10 + (s[|s| - 1] as int - 48)
  }

  function Pow10(k: nat): nat {
    if k == 0 then 1 else 10 * Pow10(k - 1)
  }

  // ---------------------------------------------------------------------------
  // Check digit

  /** 3 at even positions, 1 at odd ones. */
  function Weight(i: nat): int {
    if i % 2 == 0 then 3 else 1
  }

  /** The accumulator of `calculateCheckDigit` after it has consumed `s`. */
  function WeightedSum(s: seq<byte>): nat {
    if |s| == 0 then 0 else WeightedSum(s[..|s| - 1]) + Weight(|s| - 1) * s[|s| - 1] as int
  }

  /** The check digit of a base code: the digit that, added to the weighted
      sum, makes it a multiple of ten. */
  function CheckDigit(baseCode: seq<byte>): (d: int)
    ensures 0 <= d <= 9
    ensures (WeightedSum(baseCode) + d) % 10 == 0
  {
    (10 - WeightedSum(baseCode) % 10) % 10
  }

  /** `calculateCheckDigit`: one pass over the base code accumulating the
      weighted character codes. */
  method CalculateCheckDigit(baseCode: seq<byte>) returns (d: int)
    ensures d == CheckDigit(baseCode)
    ensures 0 <= d <= 9 && (WeightedSum(baseCode) + d) % 10 == 0
  {
    var sum := 0;
    var i := 0;
    while i < |baseCode|
      invariant 0 <= i <= |baseCode|
      invariant sum == WeightedSum(baseCode[..i])
    {
      assert baseCode[..i + 1][..i] == baseCode[..i];
      if i % 2 == 0 {
        sum := sum + baseCode[i] as int * 3;
      } else {
        sum := sum + baseCode[i] as int;
      }
      i := i + 1;
    }
    assert baseCode[..i] == baseCode;
    d := (10 - sum % 10) % 10;
  }

  // ---------------------------------------------------------------------------
  // Generate and Validate

  /** The `^[A-Z]{2}\d{6}\d{2}\d{1}$` pattern on an 11-byte string. */
  predicate MatchesPattern(code: seq<byte>) {
    |code| == CodeLength
    && IsUpperLetter(code[0]) && IsUpperLetter(code[1])
    && AllDigits(code[2..])
  }

  /** `Generator.Generate` with the current year passed in. */
  function Generate(categoryName: seq<byte>, itemId: int, year: nat): (r: Result<seq<byte>, Error>)
    requires IsAscii(categoryName)
    ensures r.Err? <==> |categoryName| < 2
    ensures r.Err? ==> r.error == CategoryNameTooShort
    ensures r.Ok? ==> 2 <= |r.value| && r.value[..2] == Upper(categoryName[..2])
  {
    var prefix := Upper(categoryName);
    if |prefix| < 2 then Err(CategoryNameTooShort)
    else
      var baseCode := prefix[..2] + FormatInt(itemId, 6) + FormatInt(year % 100, 2);
      Ok(baseCode + [DigitChar(CheckDigit(baseCode))])
  }

  /** `Generator.Validate`: fails closed on the wrong length or shape, and
      otherwise accepts exactly the codes whose eleven weighted characters,
      with the last counted as its digit value, sum to a multiple of ten. */
  function Validate(code: seq<byte>): (r: bool)
    ensures r ==> |code| == CodeLength && MatchesPattern(code)
    ensures r <==> MatchesPattern(code) && (WeightedSum(code[..BaseLength]) + (code[BaseLength] as int - 48)) % 10 == 0
  {
    if |code| != CodeLength then false
    else if !MatchesPattern(code) then false
    else CheckDigit(code[..BaseLength]) == code[BaseLength] as int - 48
  }

  // ---------------------------------------------------------------------------
  // Lemmas

  lemma {:induction false} DecimalDigitsValue(n: nat)
    ensures DigitsValue(DecimalDigits(n)) == n
  {
    var d := DecimalDigits(n);
    if n >= 10 {
      DecimalDigitsValue(n / 10);
      assert d[..|d| - 1] == DecimalDigits(n / 10);
    }
  }

  lemma {:induction false} DecimalDigitsLength(n: nat, k: nat)
    requires 1 <= k && n < Pow10(k)
    ensures |DecimalDigits(n)| <= k
  {
    if n >= 10 {
      assert 2 <= k;
      assert n / 10 < Pow10(k - 1);
      DecimalDigitsLength(n / 10, k - 1);
    }
  }

  /** Leading zeros do not change the value of a digit string. */
  lemma {:induction false} LeadingZerosValue(z: nat, d: seq<byte>)
    requires AllDigits(d)
    ensures AllDigits(seq(z, _ => DigitZero) + d)
    ensures DigitsValue(seq(z, _ => DigitZero) + d) == DigitsValue(d)
  {
    var zs := seq(z, _ => DigitZero);
    if |d| == 0 {
      assert zs + d == zs;
      ZerosValue(z);
    } else {
      var d' := d[..|d| - 1];
      LeadingZerosValue(z, d');
      assert (zs + d)[..|zs + d| - 1] == zs + d';
    }
  }

  lemma {:induction false} ZerosValue(z: nat)
    ensures AllDigits(seq(z, _ => DigitZero))
    ensures DigitsValue(seq(z, _ => DigitZero)) == 0
  {
    if z > 0 {
      ZerosValue(z - 1);
      assert seq(z, _ => DigitZero)[..z - 1] == seq(z - 1, _ => DigitZero);
    }
  }

  /** `%0<width>d` of a number with at most `width` digits is exactly `width`
      digits and denotes the number. */
  lemma FormatIntFixedWidth(n: nat, width: nat)
    requires 1 <= width && n < Pow10(width)
    ensures |FormatInt(n, width)| == width
    ensures AllDigits(FormatInt(n, width))
    ensures DigitsValue(FormatInt(n, width)) == n
  {
    var d := DecimalDigits(n);
    DecimalDigitsLength(n, width);
    DecimalDigitsValue(n);
    if |d| < width {
      LeadingZerosValue(width - |d|, d);
    }
  }

  /** For an item id of at most six digits and a prefix of ASCII characters,
      the generated code is eleven characters laid out as `XXnnnnnnYYv`. */
  lemma GenerateLayout(categoryName: seq<byte>, itemId: int, year: nat)
    requires IsAscii(categoryName) && 2 <= |categoryName|
    requires 0 <= itemId <= 999999
    ensures Generate(categoryName, itemId, year).Ok?
    ensures var code := Generate(categoryName, itemId, year).value;
      && |code| == CodeLength
      && code[..2] == Upper(categoryName[..2])
      && AllDigits(code[2..])
      && DigitsValue(code[2..8]) == itemId
      && DigitsValue(code[8..10]) == year % 100
      && code[10] as int - 48 == CheckDigit(code[..10])
  {
    assert Pow10(6) == 1000000 by {
      assert Pow10(2) == 100;
      assert Pow10(4) == 10000;
    }
    assert Pow10(2) == 100;
    FormatIntFixedWidth(itemId, 6);
    FormatIntFixedWidth(year % 100, 2);
    var prefix := Upper(categoryName)[..2];
    var num := FormatInt(itemId, 6);
    var yy := FormatInt(year % 100, 2);
    var baseCode := prefix + num + yy;
    var code := Generate(categoryName, itemId, year).value;
    assert code == baseCode + [DigitChar(CheckDigit(baseCode))];
    assert code[..10] == baseCode;
    assert code[2..8] == num;
    assert code[8..10] == yy;
    UpperPrefix(categoryName, 2);
    forall i | 2 <= i < 11 ensures IsDigit(code[i]) {
      if i < 8 { assert code[i] == num[i - 2]; }
      else if i < 10 { assert code[i] == yy[i - 8]; }
    }
  }

  /** Round trip: whenever the first two characters of the category name
      upper-case to letters and the id has at most six digits, the generated
      code validates. */
  lemma GenerateThenValidate(categoryName: seq<byte>, itemId: int, year: nat)
    requires IsAscii(categoryName) && 2 <= |categoryName|
    requires IsUpperLetter(ToUpperByte(categoryName[0])) && IsUpperLetter(ToUpperByte(categoryName[1]))
    requires 0 <= itemId <= 999999
    ensures Generate(categoryName, itemId, year).Ok?
    ensures Validate(Generate(categoryName, itemId, year).value)
  {
    GenerateLayout(categoryName, itemId, year);
    var code := Generate(categoryName, itemId, year).value;
    assert code[0] == Upper(categoryName[..2])[0];
    assert code[1] == Upper(categoryName[..2])[1];
  }

  /** Changing the character at position `p` shifts the weighted sum by the
      change times that position's weight. */
  lemma {:induction false} WeightedSumUpdate(s: seq<byte>, p: nat, c: byte)
    requires p < |s|
    ensures WeightedSum(s[p := c]) == WeightedSum(s) + Weight(p) * (c as int - s[p] as int)
  {
    var t := s[p := c];
    var n := |s| - 1;
    if p < n {
      WeightedSumUpdate(s[..n], p, c);
      assert t[..n] == s[..n][p := c];
    } else {
      assert t[..n] == s[..n];
    }
  }

  /** Two check digits agree exactly when the weighted sums agree modulo ten. */
  lemma CheckDigitDeterminedByResidue(a: seq<byte>, b: seq<byte>)
    ensures CheckDigit(a) == CheckDigit(b) <==> WeightedSum(a) % 10 == WeightedSum(b) % 10
  {
    ResidueFromCheckDigit(WeightedSum(a));
    ResidueFromCheckDigit(WeightedSum(b));
  }

  /** The residue of a sum can be read back from its check digit. */
  lemma ResidueFromCheckDigit(w: nat)
    ensures w % 10 == (10 - (10 - w % 10) % 10) % 10
  {
    var r := w % 10;
    if r != 0 {
      assert (10 - r) % 10 == 10 - r;
      assert 10 - (10 - r) == r;
    }
  }

  /** Weights 3 and 1 are invertible modulo ten, so a non-zero digit change
      never leaves the weighted sum's residue unchanged. */
  lemma WeightedChangeNotMultipleOfTen(p: nat, k: int)
    requires -9 <= k <= 9 && k != 0
    ensures (Weight(p) * k) % 10 != 0
  {
    if p % 2 == 0 {
      assert Weight(p) * k == 3 * k;
    } else {
      assert Weight(p) * k == k;
    }
  }

  lemma ResidueShift(s: int, t: int, d: int)
    requires (s + d) % 10 == 0 && t % 10 != 0
    ensures (s + t + d) % 10 != 0
  {
  }

  /** Replacing any one digit of a valid code (positions 2 to 10) by a
      different digit makes it invalid. */
  lemma SingleDigitErrorDetected(code: seq<byte>, p: nat, c: byte)
    requires Validate(code)
    requires 2 <= p < CodeLength && IsDigit(c) && c != code[p]
    ensures !Validate(code[p := c])
  {
    var bad := code[p := c];
    var base, base' := code[..BaseLength], bad[..BaseLength];
    if p < BaseLength {
      assert base' == base[p := c];
      assert bad[BaseLength] == code[BaseLength];
      var k := c as int - code[p] as int;
      WeightedSumUpdate(base, p, c);
      WeightedChangeNotMultipleOfTen(p, k);
      ResidueShift(WeightedSum(base), Weight(p) * k, code[BaseLength] as int - 48);
    } else {
      assert base' == base;
    }
  }

  /** The base `BR00004224` of category "Brakes", item 42, year 2024. */
  const BrakesBase: seq<byte> := [66, 82, 48, 48, 48, 48, 52, 50, 50, 52]

  /** Category "Brakes", item 42, in 2024 gives the code `BR000042248`. */
  lemma BrakesExample()
    ensures Generate([66, 114, 97, 107, 101, 115], 42, 2024) == Ok(BrakesBase + [56])
    ensures Validate(BrakesBase + [56])
  {
    var name: seq<byte> := [66, 114, 97, 107, 101, 115];
    assert Upper(name)[..2] == [66, 82];
    assert DecimalDigits(42) == [52, 50];
    assert FormatInt(42, 6) == [48, 48, 48, 48, 52, 50];
    assert DecimalDigits(24) == [50, 52];
    assert FormatInt(2024 % 100, 2) == [50, 52];
    assert [66, 82] + [48, 48, 48, 48, 52, 50] + [50, 52] == BrakesBase;
    BrakesWeightedSum();
    assert CheckDigit(BrakesBase) == 8;
    assert (BrakesBase + [56])[..BaseLength] == BrakesBase;
  }

  lemma BrakesWeightedSum()
    ensures WeightedSum(BrakesBase) == 1072
  {
    var b := BrakesBase;
    assert WeightedSum(b[..1]) == 198 by { assert b[..1][..0] == []; }
    assert WeightedSum(b[..2]) == 280 by { assert b[..2][..1] == b[..1]; }
    assert WeightedSum(b[..3]) == 424 by { assert b[..3][..2] == b[..2]; }
    assert WeightedSum(b[..4]) == 472 by { assert b[..4][..3] == b[..3]; }
    assert WeightedSum(b[..5]) == 616 by { assert b[..5][..4] == b[..4]; }
    assert WeightedSum(b[..6]) == 664 by { assert b[..6][..5] == b[..5]; }
    assert WeightedSum(b[..7]) == 820 by { assert b[..7][..6] == b[..6]; }
    assert WeightedSum(b[..8]) == 870 by { assert b[..8][..7] == b[..7]; }
    assert WeightedSum(b[..9]) == 1020 by { assert b[..9][..8] == b[..8]; }
    assert b[..10] == b;
    assert WeightedSum(b) == 1072 by { assert b[..9] == b[..|b| - 1]; }
  }

  /** The check is blind to a letter substitution whose character codes differ
      by ten at a weight-3 position: `BR000042248` and `LR000042248` both
      validate. */
  lemma LetterSubstitutionUndetected()
    ensures Validate(BrakesBase + [56])
    ensures Validate((BrakesBase + [56])[0 := 76])
  {
    BrakesExample();
    var other := (BrakesBase + [56])[0 := 76];
    assert other[..BaseLength] == BrakesBase[0 := 76];
    WeightedSumUpdate(BrakesBase, 0, 76);
  }
}
