/**
 Guess validation (`validate_input`): the input is parsed as a `u32` first,
 then scanned character by character; at each index a repeated digit is
 reported before an index past the fourth.
 */
module InputValidator {
  import opened Wrappers
  import opened Digits

  const U32_MAX: nat := 4294967295

  const REPEATED_DIGITS: string := "Digits cannot be repeated"
  const WRONG_LENGTH: string := "Number has to have 4 digits"

  /** `ValidationError`: a failed `u32` parse, or a broken guess rule with its reason. */
  datatype ValidationError = Parse | Invalid(reason: string)

  /**
   The outcome of `validate_input`. `Panic` stands for the abort raised by
   `to_digit(10).unwrap()` on a character that the `u32` parse accepted but
   that is not a digit (a leading `'+'`).
   */
  datatype ValidationResult = Ok(value: nat) | Err(error: ValidationError) | Panic

  /**
   `str::parse::<u32>`: an optional leading `'+'` (a sign alone is refused),
   then one or more ASCII digits whose value fits in 32 bits. Leading zeros
   are accepted.
   */
  function ParseU32(s: string): (r: Option<nat>)
    ensures r.Some? ==> r.value <= U32_MAX
    ensures r.Some? ==> |s| >= 1 && var d := if s[0] == '+' then s[1..] else s;
      |d| >= 1 && AllDigits(d) && r.value == DecimalValue(d)
    ensures r.Some? ==> |s| >= 1 && (IsAsciiDigit(s[0]) || s[0] == '+') && AllDigits(s[1..])
    ensures |s| >= 1 && AllDigits(s) && DecimalValue(s) <= U32_MAX ==> r == Some(DecimalValue(s))
    ensures |s| >= 2 && s[0] == '+' && AllDigits(s[1..]) && DecimalValue(s[1..]) <= U32_MAX ==>
      r == Some(DecimalValue(s[1..]))
  {
    if |s| == 0 then None
    else if |s| == 1 && (s[0] == '+' || s[0] == '-') then None
    else
      var digits := if s[0] == '+' then s[1..] else s;
      if AllDigits(digits) && DecimalValue(digits) <= U32_MAX then Some(DecimalValue(digits))
      else None
  }

  /**
   The `for (i, c)` loop from index `i` on, with `seen` the digits pushed to
   `diff` so far and `guess` the parsed value returned when the loop ends.
   */
  function Scan(input: string, i: nat, seen: seq<Digit>, guess: nat): ValidationResult
    requires i <= |input|
    decreases |input| - i
  {
    if i == |input| then Ok(guess)
    else if !IsAsciiDigit(input[i]) then Panic
    else
      var digit := DigitValue(input[i]);
      if digit in seen then Err(Invalid(REPEATED_DIGITS))
      else if i >= 4 then Err(Invalid(WRONG_LENGTH))
      else Scan(input, i + 1, seen + [digit], guess)
  }

  /**
   `validate_input`: a guess is accepted exactly when it is one to four ASCII
   digits with no repeated character, and then with the number they denote.
   */
  function Validate(input: string): (r: ValidationResult)
    ensures r.Ok? <==> 1 <= |input| <= 4 && AllDigits(input) && Distinct(input)
    ensures r.Ok? ==> r.value == DecimalValue(input)
  {
    ShortDigitsParse(input);
    match ParseU32(input)
    case None => Err(Parse)
    case Some(guess) =>
      ScanAccepts(input, guess);
      Scan(input, 0, [], guess)
  }

  /** One to four ASCII digits always parse, to the number they denote. */
  lemma ShortDigitsParse(input: string)
    ensures 1 <= |input| <= 4 && AllDigits(input) ==> ParseU32(input) == Some(DecimalValue(input))
  {
    if 1 <= |input| <= 4 && AllDigits(input) {
      assert Pow10(4) == 10000;
      PowMonotone(|input|, 4);
    }
  }

  /** After a successful parse, the scan accepts exactly one to four distinct digits. */
  lemma ScanAccepts(input: string, guess: nat)
    requires ParseU32(input) == Some(guess)
    ensures Scan(input, 0, [], guess).Ok? <==> 1 <= |input| <= 4 && AllDigits(input) && Distinct(input)
    ensures Scan(input, 0, [], guess).Ok? ==> Scan(input, 0, [], guess).value == DecimalValue(input)
  {
    if input[0] != '+' {
      assert input[..0] == [] && input[..|input|] == input;
      ScanDigits(input, 0, guess);
      if 1 <= |input| <= 4 && AllDigits(input) {
        assert Pow10(4) == 10000;
        PowMonotone(|input|, 4);
      }
    }
  }

  /** The digit values of a digit string, in order. */
  function DigitValues(s: string): (ds: seq<Digit>)
    requires AllDigits(s)
    ensures |ds| == |s|
    ensures forall k :: 0 <= k < |s| ==> ds[k] == DigitValue(s[k])
  {
    seq(|s|, k requires 0 <= k < |s| => DigitValue(s[k]))
  }

  /**
   For a string of digits, scanning from a distinct prefix of at most four
   characters reports a repeat if the first five characters are not
   distinct, a length error if they are and there are more than four, and
   otherwise succeeds.
   */
  lemma {:induction false} ScanDigits(s: string, i: nat, guess: nat)
    requires AllDigits(s) && i <= |s| && i <= 4 && Distinct(s[..i])
    ensures Scan(s, i, DigitValues(s[..i]), guess) ==
      if !Distinct(s[..if |s| < 5 then |s| else 5]) then Err(Invalid(REPEATED_DIGITS))
      else if |s| > 4 then Err(Invalid(WRONG_LENGTH))
      else Ok(guess)
    decreases |s| - i
  {
    var m := if |s| < 5 then |s| else 5;
    if i == |s| {
      assert s[..m] == s[..i];
    } else {
      var seen := DigitValues(s[..i]);
      var digit := DigitValue(s[i]);
      if digit in seen {
        var k :| 0 <= k < i && seen[k] == digit;
        DigitValueInjective(s[k], s[i]);
        assert s[..m][k] == s[..m][i];
      } else {
        forall k | 0 <= k < i
          ensures s[k] != s[i]
        {
          DigitValueInjective(s[k], s[i]);
          assert seen[k] == DigitValue(s[k]);
        }
        assert Distinct(s[..i + 1]);
        if i < 4 {
          assert DigitValues(s[..i + 1]) == seen + [digit];
          ScanDigits(s, i + 1, guess);
        } else {
          assert s[..m] == s[..i + 1];
        }
      }
    }
  }

  /**
   The whole decision of `validate_input`, in order: a failed parse, the
   panic on a leading `'+'`, a repeated digit among the first five
   characters, more than four characters, and finally the parsed value.
   */
  lemma ValidateDecision(s: string)
    ensures Validate(s) ==
      if ParseU32(s).None? then Err(Parse)
      else if s[0] == '+' then Panic
      else if !Distinct(s[..if |s| < 5 then |s| else 5]) then Err(Invalid(REPEATED_DIGITS))
      else if |s| > 4 then Err(Invalid(WRONG_LENGTH))
      else Ok(DecimalValue(s))
  {
    if ParseU32(s).Some? && s[0] != '+' {
      assert s[..0] == [];
      ScanDigits(s, 0, DecimalValue(s));
    }
  }

  /**
   A guess is accepted exactly when it is one to four ASCII digits with no
   repeated character, and the accepted value is the number they denote.
   This restates the contract of `Validate` as one equivalence on `Ok(v)`,
   for callers that name the value.
   */
  lemma ValidateOkIff(s: string, v: nat)
    ensures Validate(s) == Ok(v) <==>
      1 <= |s| <= 4 && AllDigits(s) && Distinct(s) && v == DecimalValue(s)
  {
    ValidateDecision(s);
    if 1 <= |s| <= 4 && AllDigits(s) {
      assert Pow10(4) == 10000;
      PowMonotone(|s|, 4);
      assert s[..|s|] == s;
    }
    if Validate(s).Ok? {
      assert s[..|s|] == s;
    }
  }

  /**
   Parsing comes first: the empty string, a string with a character that is
   neither a digit nor a single leading `'+'`, and a value beyond 32 bits are
   all parse errors, and a parse error is never reported as a broken rule.
   */
  lemma ParseFailsFirst(s: string)
    ensures Validate(s) == Err(Parse) <==> ParseU32(s).None?
    ensures |s| == 0 ==> Validate(s) == Err(Parse)
    ensures (exists i :: 0 < i < |s| && !IsAsciiDigit(s[i])) ==> Validate(s) == Err(Parse)
    ensures |s| > 0 && !IsAsciiDigit(s[0]) && s[0] != '+' ==> Validate(s) == Err(Parse)
    ensures AllDigits(s) && DecimalValue(s) > U32_MAX ==> Validate(s) == Err(Parse)
  {
    ValidateDecision(s);
    if exists i :: 0 < i < |s| && !IsAsciiDigit(s[i]) {
      var i :| 0 < i < |s| && !IsAsciiDigit(s[i]);
      if s[0] == '+' {
        assert s[1..][i - 1] == s[i];
      }
    }
  }

  /** `validate_input` aborts exactly on parseable input that starts with `'+'`, such as "+12". */
  lemma PanicsOnPlusSign(s: string)
    ensures Validate(s) == Panic <==> ParseU32(s).Some? && s[0] == '+'
  {
    ValidateDecision(s);
  }

  /**
   The first failing index decides the error, and at that index the repeat
   check comes first: a repeat among the first five characters wins over the
   length rule.
   */
  lemma ErrorPrecedence(s: string)
    requires AllDigits(s) && ParseU32(s).Some?
    ensures Validate(s) == Err(Invalid(REPEATED_DIGITS)) <==>
      exists k :: 0 <= k < |s| && k <= 4 && s[k] in s[..k]
    ensures Validate(s) == Err(Invalid(WRONG_LENGTH)) <==> |s| >= 5 && Distinct(s[..5])
  {
    ValidateDecision(s);
    var m := if |s| < 5 then |s| else 5;
    if !Distinct(s[..m]) {
      var i, j :| 0 <= i < j < m && s[..m][i] == s[..m][j];
      assert s[j] in s[..j];
    }
    if exists k :: 0 <= k < |s| && k <= 4 && s[k] in s[..k] {
      var k :| 0 <= k < |s| && k <= 4 && s[k] in s[..k];
      var i :| 0 <= i < k && s[..k][i] == s[k];
      assert s[..m][i] == s[..m][k];
    }
  }

  /** The crate's doctest: "1234" is accepted as 1234. */
  lemma AcceptsFourDigits()
    ensures Validate("1234") == Ok(1234)
  {
    FourDigitValue("1234");
    ValidateOkIff("1234", 1234);
  }

  /** The crate's unit test: the short guess "234" is accepted as 234. */
  lemma AcceptsShortGuess()
    ensures Validate("234") == Ok(234)
  {
    FourDigitValue("0234");
    LeadingZeros(1, "234");
    assert Zeros(1) + "234" == "0234";
    ValidateOkIff("234", 234);
  }

  /** A leading zero is accepted, and the value drops it: "0123" is 123. */
  lemma AcceptsLeadingZero()
    ensures Validate("0123") == Ok(123)
  {
    FourDigitValue("0123");
    ValidateOkIff("0123", 123);
  }

  /** Empty and non-numeric guesses of the crate's tests fail to parse. */
  lemma ParseErrorExamples()
    ensures Validate("sd41") == Err(Parse)
    ensures Validate("") == Err(Parse)
  {
    ParseFailsFirst("sd41");
    ParseFailsFirst("");
  }

  /**
   The rule errors of the crate's tests and doctest: "1123" repeats at index
   1, "12345" passes index 4 with distinct digits, and "12341" repeats at
   index 4, where the repeat check comes first. A summary of
   `RepeatExample`, `LengthExample` and `RepeatAtFifthExample`.
   */
  lemma RuleErrorExamples()
    ensures Validate("1123") == Err(Invalid(REPEATED_DIGITS))
    ensures Validate("12345") == Err(Invalid(WRONG_LENGTH))
    ensures Validate("12341") == Err(Invalid(REPEATED_DIGITS))
  {
    RepeatExample();
    LengthExample();
    RepeatAtFifthExample();
  }

  lemma RepeatExample()
    ensures Validate("1123") == Err(Invalid(REPEATED_DIGITS))
  {
    ValidateDecision("1123");
    assert "1123"[..4][0] == "1123"[..4][1];
  }

  lemma LengthExample()
    ensures Validate("12345") == Err(Invalid(WRONG_LENGTH))
  {
    ValidateDecision("12345");
    assert "12345"[..5] == "12345";
  }

  lemma RepeatAtFifthExample()
    ensures Validate("12341") == Err(Invalid(REPEATED_DIGITS))
  {
    ValidateDecision("12341");
    assert "12341"[..5][0] == "12341"[..5][4];
  }

  /** "+12" parses as 12, then aborts on the '+' at index 0. */
  lemma PanicExample()
    ensures Validate("+12") == Panic
  {
    PanicsOnPlusSign("+12");
    assert "+12"[1..] == "12";
  }

  /**
   Corrected validation: every character must be an ASCII digit before the
   value is used, so a leading `'+'` is refused like any other non-digit
   instead of aborting the program.
   */
  function ValidateDigitsOnly(input: string): (r: ValidationResult)
    ensures !r.Panic?
    ensures Validate(input).Panic? ==> r == Err(Parse)
    ensures !Validate(input).Panic? ==> r == Validate(input)
  {
    ValidateDecision(input);
    if AllDigits(input) then Validate(input) else Err(Parse)
  }

  /** With the corrected validation, "+12" is a parse error. */
  lemma PlusSignRefused()
    ensures ValidateDigitsOnly("+12") == Err(Parse)
  {
    PanicExample();
  }
}
