/**
 * The backend IMEI utilities: `validateIMEI`, the Luhn mod-10 check it relies on,
 * `cleanIMEI` and `formatIMEI`.  The check digit is the one of ISO/IEC 7812-1
 * Annex B, which 3GPP TS 23.003 (section 6.2.1 and Annex B) prescribes for the IMEI.
 */
module ImeiValidator {
  import opened Text

  /** Why an IMEI was rejected; each kind carries the message the validator returns. */
  datatype ImeiError = Required | NotDigits | WrongLength(got: nat) | BadChecksum

  function Message(e: ImeiError): string {
    match e
    case Required => "IMEI is required"
    case NotDigits => "IMEI must contain only digits"
    case WrongLength(n) => "IMEI must be 15 digits (got " + NatToString(n) + ")"
    case BadChecksum => "Invalid IMEI checksum (failed Luhn algorithm)"
  }

  /** `{ valid: true, error: null }` or `{ valid: false, error }`. */
  datatype Validation = Valid | Invalid(error: ImeiError)

  /** One digit's contribution: doubled ones have 9 taken off when they exceed 9. */
  function LuhnDigit(c: char, doubled: bool): (d: int)
    requires IsDigit(c)
    ensures 0 <= d <= 9
    ensures !doubled ==> d == DigitValue(c)
  {
    var v := DigitValue(c);
    if doubled then (if 2 * v > 9 then 2 * v - 9 else 2 * v) else v
  }

  /**
   * The Luhn sum of `s` read from the right: the last digit is doubled when
   * `doubled` holds, and the flag alternates from one digit to the next one leftwards.
   */
  function LuhnSum(s: string, doubled: bool): nat
    requires AllDigits(s)
  {
    if s == [] then 0 else LuhnDigit(s[|s| - 1], doubled) + LuhnSum(s[..|s| - 1], !doubled)
  }

  /** The Luhn condition: with every second digit from the right doubled, the sum is a multiple of 10. */
  predicate LuhnHolds(s: string)
    requires AllDigits(s)
  {
    LuhnSum(s, false) % 10 == 0
  }

  /** `luhnCheck`: the loop from the rightmost digit leftwards, accumulating `sum` and flipping `isEven`. */
  method LuhnCheck(num: string) returns (ok: bool)
    requires AllDigits(num)
    ensures ok == LuhnHolds(num)
  {
    var sum := 0;
    var isEven := false;
    var k := |num|;
    assert num[..k] == num;
    while k > 0
      invariant 0 <= k <= |num|
      invariant sum + LuhnSum(num[..k], isEven) == LuhnSum(num, false)
    {
      assert num[..k][..k - 1] == num[..k - 1];
      var digit := DigitValue(num[k - 1]);
      if isEven {
        digit := digit * 2;
        if digit > 9 {
          digit := digit - 9;
        }
      }
      sum := sum + digit;
      isEven := !isEven;
      k := k - 1;
    }
    assert num[..0] == [];
    ok := sum % 10 == 0;
  }

  /** `validateIMEI` for a string argument. */
  function ValidateImei(imei: string): Validation {
    if imei == "" then Invalid(Required)
    else
      var s := RemoveWhitespace(Trim(imei));
      if !IsDigitString(s) then Invalid(NotDigits)
      else if |s| != 15 && |s| != 14 then Invalid(WrongLength(|s|))
      else if |s| == 14 then Valid
      else if !LuhnHolds(s) then Invalid(BadChecksum)
      else Valid
  }

  /**
   * Every outcome of `validateIMEI`, stated on the input with all its whitespace
   * removed: the trim before the removal makes no difference.
   */
  lemma ValidateImeiOutcomes(imei: string)
    ensures var c := RemoveWhitespace(imei);
      && (ValidateImei(imei) == Invalid(Required) <==> imei == "")
      && (ValidateImei(imei) == Invalid(NotDigits) <==> imei != "" && !IsDigitString(c))
      && (ValidateImei(imei).Invalid? && ValidateImei(imei).error.WrongLength? <==>
            imei != "" && IsDigitString(c) && |c| != 14 && |c| != 15)
      && (ValidateImei(imei).Invalid? && ValidateImei(imei).error.WrongLength? ==>
            ValidateImei(imei).error.got == |c|)
      && (ValidateImei(imei) == Invalid(BadChecksum) <==>
            imei != "" && IsDigitString(c) && |c| == 15 && !LuhnHolds(c))
      && (ValidateImei(imei) == Valid <==>
            imei != "" && IsDigitString(c) && (|c| == 14 || (|c| == 15 && LuhnHolds(c))))
  {
    RemoveWhitespaceAfterTrim(imei);
  }

  /** A non-empty input made of whitespace only is reported as non-digits, not as missing. */
  lemma BlankImeiIsNotDigits(imei: string)
    requires imei != "" && AllWhitespace(imei)
    ensures ValidateImei(imei) == Invalid(NotDigits)
  {
    RemoveWhitespaceAfterTrim(imei);
    RemoveWhitespaceEmpty(imei);
  }

  /** `cleanIMEI`: empty stays empty, otherwise trim and drop every whitespace character. */
  function CleanImei(imei: string): (r: string)
    ensures NoWhitespace(r)
    ensures r == RemoveWhitespace(imei)
  {
    if imei == "" then ""
    else
      RemoveWhitespaceAfterTrim(imei);
      RemoveWhitespace(Trim(imei))
  }

  /** Cleaning a cleaned IMEI changes nothing. */
  lemma CleanImeiIdempotent(imei: string)
    ensures CleanImei(CleanImei(imei)) == CleanImei(imei)
  {
    RemoveWhitespaceNoop(CleanImei(imei));
  }

  /** Cleaning first never changes whether an IMEI is accepted, and keeps the verdict of every non-blank input. */
  lemma ValidateAfterClean(imei: string)
    ensures ValidateImei(CleanImei(imei)).Valid? == ValidateImei(imei).Valid?
    ensures CleanImei(imei) != "" ==> ValidateImei(CleanImei(imei)) == ValidateImei(imei)
  {
    var c := CleanImei(imei);
    ValidateImeiOutcomes(imei);
    ValidateImeiOutcomes(c);
    RemoveWhitespaceNoop(c);
  }

  /** `formatIMEI`: a 15-digit IMEI in groups of 6, 6 and 3; anything else only loses its whitespace. */
  function FormatImei(imei: string): (r: string)
    ensures imei == "" ==> r == ""
    ensures |RemoveWhitespace(imei)| == 15 ==>
      |r| == 17 && r[6] == ' ' && r[13] == ' ' &&
      r[..6] + r[7..13] + r[14..] == RemoveWhitespace(imei)
    ensures |RemoveWhitespace(imei)| != 15 ==> r == RemoveWhitespace(imei)
  {
    if imei == "" then ""
    else
      var c := RemoveWhitespace(imei);
      if |c| == 15 then
        var r := c[..6] + " " + c[6..12] + " " + c[12..];
        assert r[..6] == c[..6] && r[7..13] == c[6..12] && r[14..] == c[12..];
        assert c == c[..6] + c[6..12] + c[12..];
        r
      else c
  }

  lemma NoWhitespaceSlice(s: string, i: int, j: int)
    requires NoWhitespace(s) && 0 <= i <= j <= |s|
    ensures NoWhitespace(s[i..j])
  {
    assert forall k :: 0 <= k < j - i ==> s[i..j][k] == s[i + k];
  }

  /** Removing whitespace from three whitespace-free groups joined by single spaces gives the groups run together. */
  lemma RemoveSeparators(x: string, y: string, z: string)
    requires NoWhitespace(x) && NoWhitespace(y) && NoWhitespace(z)
    ensures RemoveWhitespace(x + " " + y + " " + z) == x + y + z
  {
    var p1 := x + " ";
    var p2 := p1 + y;
    var p3 := p2 + " ";
    assert RemoveWhitespace(" ") == [] by { assert " "[1..] == []; }
    RemoveWhitespaceNoop(x);
    RemoveWhitespaceNoop(y);
    RemoveWhitespaceNoop(z);
    RemoveWhitespaceAppend(x, " ");
    assert RemoveWhitespace(p1) == x;
    RemoveWhitespaceAppend(p1, y);
    assert RemoveWhitespace(p2) == x + y;
    RemoveWhitespaceAppend(p2, " ");
    assert RemoveWhitespace(p3) == x + y;
    RemoveWhitespaceAppend(p3, z);
  }

  /** The three groups `formatIMEI` cuts a 15-character string into, with whitespace removed again, give back the string. */
  lemma RegroupFifteen(c: string)
    requires |c| == 15 && NoWhitespace(c)
    ensures RemoveWhitespace(c[..6] + " " + c[6..12] + " " + c[12..]) == c
  {
    var x, y, z := c[..6], c[6..12], c[12..];
    NoWhitespaceSlice(c, 0, 6);
    NoWhitespaceSlice(c, 6, 12);
    NoWhitespaceSlice(c, 12, 15);
    assert z == c[12..15];
    RemoveSeparators(x, y, z);
    assert x + y == c[..12];
    assert c[..12] + z == c;
  }

  /** `cleanIMEI(formatIMEI(s))` is `s` with all whitespace removed, so it is `s` itself when `s` has none. */
  lemma CleanFormatRoundTrip(imei: string)
    ensures CleanImei(FormatImei(imei)) == RemoveWhitespace(imei)
    ensures NoWhitespace(imei) ==> CleanImei(FormatImei(imei)) == imei
  {
    var c := RemoveWhitespace(imei);
    var f := FormatImei(imei);
    if imei != "" && |c| == 15 {
      assert f == c[..6] + " " + c[6..12] + " " + c[12..];
      RegroupFifteen(c);
    } else if imei != "" {
      assert f == c;
      RemoveWhitespaceNoop(c);
    }
    assert CleanImei(f) == RemoveWhitespace(f);
    if NoWhitespace(imei) {
      RemoveWhitespaceNoop(imei);
    }
  }



  /** Whether the digit flag ends up set after `n` alternations starting from `doubled`. */
  function Flip(doubled: bool, n: nat): bool {
    if n % 2 == 0 then doubled else !doubled
  }

  /** The Luhn sum of a concatenation: `b` keeps its flag, `a` starts from the flag after `|b|` alternations. */
  lemma {:induction false} LuhnSumAppend(a: string, b: string, doubled: bool)
    requires AllDigits(a) && AllDigits(b)
    ensures AllDigits(a + b)
    ensures LuhnSum(a + b, doubled) == LuhnSum(a, Flip(doubled, |b|)) + LuhnSum(b, doubled)
    decreases |b|
  {
    assert AllDigits(a + b) by {
      forall i | 0 <= i < |a + b| ensures IsDigit((a + b)[i]) {
        if i < |a| { assert (a + b)[i] == a[i]; } else { assert (a + b)[i] == b[i - |a|]; }
      }
    }
    if b == [] {
      assert a + b == a;
    } else {
      var b' := b[..|b| - 1];
      assert (a + b)[..|a + b| - 1] == a + b';
      assert (a + b)[|a + b| - 1] == b[|b| - 1];
      assert AllDigits(b') by {
        forall i | 0 <= i < |b'| ensures IsDigit(b'[i]) { assert b'[i] == b[i]; }
      }
      LuhnSumAppend(a, b', !doubled);
      assert Flip(!doubled, |b'|) == Flip(doubled, |b|);
    }
  }

  /** The check digit of a payload, as 3GPP TS 23.003 Annex B computes it. */
  function CheckDigit(payload: string): (d: int)
    requires AllDigits(payload)
    ensures 0 <= d <= 9
  {
    (10 - LuhnSum(payload, true) % 10) % 10
  }

  /** A payload followed by one more digit passes the Luhn check exactly when that digit is the check digit. */
  lemma {:induction false} CheckDigitUnique(payload: string, c: char)
    requires AllDigits(payload) && IsDigit(c)
    ensures AllDigits(payload + [c])
    ensures LuhnHolds(payload + [c]) <==> DigitValue(c) == CheckDigit(payload)
  {
    LuhnSumAppend(payload, [c], false);
    LuhnSumSingle(c, false);
    assert Flip(false, 1);
    var sum := LuhnSum(payload, true);
    assert LuhnSum(payload + [c], false) == sum + DigitValue(c);
    assert LuhnHolds(payload + [c]) == ((sum + DigitValue(c)) % 10 == 0);
    assert CheckDigit(payload) == (10 - sum % 10) % 10;
    CompletesToTen(sum, DigitValue(c));
  }

  /** A digit brings a sum to a multiple of 10 exactly when it is the sum's distance to the next multiple. */
  lemma {:induction false} CompletesToTen(sum: nat, d: int)
    requires 0 <= d <= 9
    ensures (sum + d) % 10 == 0 <==> d == (10 - sum % 10) % 10
  {
    var q, r := sum / 10, sum % 10;
    assert sum == 10 * q + r;
    assert sum + d == 10 * q + (r + d);
    if r + d < 10 {
      assert (sum + d) % 10 == r + d;
    } else {
      assert sum + d == 10 * (q + 1) + (r + d - 10);
      assert (sum + d) % 10 == r + d - 10;
    }
  }

  /** For a fixed flag, different digits contribute different amounts. */
  lemma LuhnDigitInjective(c: char, c': char, doubled: bool)
    requires IsDigit(c) && IsDigit(c') && c != c'
    ensures LuhnDigit(c, doubled) != LuhnDigit(c', doubled)
  {
  }

  lemma LuhnSumSingle(c: char, doubled: bool)
    requires IsDigit(c)
    ensures AllDigits([c]) && LuhnSum([c], doubled) == LuhnDigit(c, doubled)
  {
    assert [c][..0] == [];
  }

  /** Two numbers with the same base and different final digits cannot both be multiples of 10. */
  lemma DistinctDigitsModTen(k: int, d: int, d': int)
    requires 0 <= d <= 9 && 0 <= d' <= 9 && d != d'
    ensures (k + d) % 10 != 0 || (k + d') % 10 != 0
  {
  }

  /** The Luhn check detects every single-digit error: changing one digit of a valid number makes it invalid. */
  lemma SingleDigitErrorDetected(a: string, c: char, c': char, b: string)
    requires AllDigits(a) && AllDigits(b) && IsDigit(c) && IsDigit(c') && c != c'
    ensures AllDigits(a + [c] + b) && AllDigits(a + [c'] + b)
    ensures LuhnHolds(a + [c] + b) ==> !LuhnHolds(a + [c'] + b)
  {
    var f := Flip(false, |b|);
    LuhnSumSingle(c, f);
    LuhnSumSingle(c', f);
    LuhnSumAppend(a, [c], f);
    LuhnSumAppend(a, [c'], f);
    LuhnSumAppend(a + [c], b, false);
    LuhnSumAppend(a + [c'], b, false);
    var k := LuhnSum(a, Flip(f, 1)) + LuhnSum(b, false);
    assert LuhnSum(a + [c] + b, false) == k + LuhnDigit(c, f);
    assert LuhnSum(a + [c'] + b, false) == k + LuhnDigit(c', f);
    LuhnDigitInjective(c, c', f);
    DistinctDigitsModTen(k, LuhnDigit(c, f), LuhnDigit(c', f));
  }
}
