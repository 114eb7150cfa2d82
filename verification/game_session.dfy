/**
 The game session (`ChosenSecret::new` and the body of the loop in `run`):
 the secret keeps its number and its rendering, and each round trims the
 line ending, validates, checks for the win and otherwise scores the
 trimmed text against the rendering.
 */
module GameSession {
  import opened Wrappers
  import opened Digits
  import opened SecretGenerator
  import opened InputValidator
  import opened Scorer

  /** `ChosenSecret`: the number to guess and the string it is scored against. */
  datatype ChosenSecret = ChosenSecret(number: nat, text: string)

  /** What one round reports. `Aborted` is the panic of `validate_input` on a leading '+'. */
  datatype Outcome =
    | TryAgain(error: ValidationError)
    | Won
    | Nope(bulls: nat, cows: nat)
    | Aborted

  /** The characters of a sequence of digits. */
  function DigitChars(d: seq<Digit>): (s: string)
    ensures |s| == |d| && AllDigits(s)
    ensures forall k :: 0 <= k < |d| ==> DigitValue(s[k]) == d[k]
  {
    seq(|d|, k requires 0 <= k < |d| => DigitChar(d[k]))
  }

  lemma DigitCharsDistinct(d: seq<Digit>)
    requires Distinct(d)
    ensures Distinct(DigitChars(d))
  {
    var s := DigitChars(d);
    forall i, j | 0 <= i < j < |s|
      ensures s[i] != s[j]
    {
      assert DigitValue(s[i]) == d[i] && DigitValue(s[j]) == d[j];
    }
  }

  /** The zero-padded rendering of a packed number is its four digits in order. */
  lemma PaddedRendering(d: seq<Digit>)
    requires |d| == 4
    ensures Pad4(NatToString(Pack(d))) == DigitChars(d)
  {
    var n := Pack(d);
    PackDigits(d);
    var s := NatToString(n);
    assert Pow10(4) == 10000;
    RenderingAtMost(n, 4);
    LeadingZeros(4 - |s|, s);
    FourDigitValue(DigitChars(d));
    DecimalValueInjective(Pad4(s), DigitChars(d));
  }

  /** A suffix of a sequence with distinct elements has distinct elements. */
  lemma DistinctSuffix<T>(s: seq<T>, k: nat)
    requires Distinct(s) && k <= |s|
    ensures Distinct(s[k..])
  {
    var t := s[k..];
    forall i, j | 0 <= i < j < |t|
      ensures t[i] != t[j]
    {
      assert t[i] == s[k + i] && t[j] == s[k + j];
    }
  }

  /** Four distinct digits render with three characters when the first is 0, else four. */
  lemma SecretWidth(d: seq<Digit>)
    requires |d| == 4 && Distinct(d)
    ensures |NatToString(Pack(d))| == if d[0] == 0 then 3 else 4
  {
    assert Pow10(2) == 100 && Pow10(3) == 1000 && Pow10(4) == 10000;
    if d[0] == 0 {
      assert d[1] != 0;
      RenderingWidth(Pack(d), 3);
    } else {
      RenderingWidth(Pack(d), 4);
    }
  }

  /** What the drawn digits fix about the number's rendering. */
  lemma RenderingFacts(draws: seq<Digit>)
    requires |Dedup(draws)| >= 4
    ensures var number := CreateRandomNumber(draws);
      var digits := Dedup(draws)[..4];
      var text := NatToString(number);
      && number == Pack(digits)
      && Pad4(text) == DigitChars(digits)
      && |text| == (if digits[0] == 0 then 3 else 4)
      && Distinct(Pad4(text))
      && Distinct(text)
  {
    var number := CreateRandomNumber(draws);
    var digits := Dedup(draws)[..4];
    var text := NatToString(number);
    UnpackDigits(number);
    PaddedRendering(digits);
    DigitCharsDistinct(digits);
    DistinctSuffix(Pad4(text), |Pad4(text)| - |text|);
    assert Pad4(text)[|Pad4(text)| - |text|..] == text;
    SecretWidth(digits);
  }

  /**
   `ChosenSecret::new`: the number is drawn as in `create_random_number` and
   its string is `number.to_string()`, which is NOT zero-padded: when the
   first chosen digit is 0 the string has three characters.
   */
  function NewSecret(draws: seq<Digit>): (secret: ChosenSecret)
    requires |Dedup(draws)| >= 4
    ensures secret.number < 10000
    ensures AllDigits(secret.text) && DecimalValue(secret.text) == secret.number
    ensures Pad4(secret.text) == DigitChars(Dedup(draws)[..4])
    ensures |secret.text| == if Dedup(draws)[0] == 0 then 3 else 4
    ensures Distinct(secret.text)
  {
    var number := CreateRandomNumber(draws);
    RenderingFacts(draws);
    ChosenSecret(number, NatToString(number))
  }

  /**
   The secret as `ChosenSecret::new` documents it ("4 digit long", and
   rendered with `{:04}` in the debug print of `run`): the string is the
   four-digit, zero-padded form of the number, so it always lines up with the
   digits.
   */
  function NewSecretPadded(draws: seq<Digit>): (secret: ChosenSecret)
    requires |Dedup(draws)| >= 4
    ensures secret.number < 10000
    ensures secret.text == DigitChars(Dedup(draws)[..4])
    ensures |secret.text| == 4 && Distinct(secret.text)
    ensures AllDigits(secret.text) && DecimalValue(secret.text) == secret.number
  {
    var number := CreateRandomNumber(draws);
    RenderingFacts(draws);
    LeadingZeros(4 - |NatToString(number)|, NatToString(number));
    ChosenSecret(number, Pad4(NatToString(number)))
  }

  predicate IsLineEnd(c: char) {
    c == '\r' || c == '\n'
  }

  /** `trim_end_matches(&['\r', '\n'][..])`: drop every trailing CR and LF. */
  function TrimLineEnd(s: string): (t: string)
    ensures t <= s
    ensures |t| == 0 || !IsLineEnd(t[|t| - 1])
    ensures forall k :: |t| <= k < |s| ==> IsLineEnd(s[k])
  {
    if |s| > 0 && IsLineEnd(s[|s| - 1]) then TrimLineEnd(s[..|s| - 1]) else s
  }

  /** Whatever run of line endings follows the text, trimming gives the same result. */
  lemma {:induction false} TrimIgnoresLineEndings(s: string, e: string)
    requires forall k :: 0 <= k < |e| ==> IsLineEnd(e[k])
    ensures TrimLineEnd(s + e) == TrimLineEnd(s)
  {
    if |e| > 0 {
      var e' := e[..|e| - 1];
      assert (s + e)[..|s + e| - 1] == s + e';
      TrimIgnoresLineEndings(s, e');
    } else {
      assert s + e == s;
    }
  }

  /**
   One pass of the loop in `run`: an invalid line asks for another guess, a
   valid guess whose value is the secret's number wins before any scoring,
   and any other valid guess is scored as trimmed text against the secret's
   string.
   */
  function Round(secret: ChosenSecret, line: string): (o: Outcome)
    ensures o.TryAgain? <==> Validate(TrimLineEnd(line)).Err?
    ensures o.TryAgain? ==> o.error == Validate(TrimLineEnd(line)).error
    ensures o.Aborted? <==> Validate(TrimLineEnd(line)).Panic?
    ensures o.Won? <==> Validate(TrimLineEnd(line)) == Ok(secret.number)
    ensures o.Nope? <==> Validate(TrimLineEnd(line)).Ok? && Validate(TrimLineEnd(line)).value != secret.number
    ensures o.Nope? ==> (o.bulls, o.cows) == GetBullsAndCows(secret.text, TrimLineEnd(line))
    ensures o.Nope? ==> o.bulls + o.cows <= 4
  {
    var guess := TrimLineEnd(line);
    match Validate(guess)
    case Err(validation) => TryAgain(validation)
    case Panic => Aborted
    case Ok(number) =>
      if number == secret.number then Won
      else
        ValidateOkIff(guess, number);
        var (bulls, cows) := GetBullsAndCows(secret.text, guess);
        Nope(bulls, cows)
  }

  /** A round does not depend on how many CR and LF characters end the line. */
  lemma RoundIgnoresLineEndings(secret: ChosenSecret, s: string, e: string)
    requires forall k :: 0 <= k < |e| ==> IsLineEnd(e[k])
    ensures Round(secret, s + e) == Round(secret, s)
  {
    TrimIgnoresLineEndings(s, e);
  }

  /**
   A round is won exactly when the trimmed line is one to four distinct
   digits whose zero-padded form is the zero-padded secret number.
   */
  lemma RoundWinIff(secret: ChosenSecret, line: string)
    requires secret.number < 10000
    ensures var t := TrimLineEnd(line);
      Round(secret, line) == Won <==>
        1 <= |t| <= 4 && AllDigits(t) && Distinct(t) && Pad4(t) == Pad4(NatToString(secret.number))
  {
    var t := TrimLineEnd(line);
    ValidateOkIff(t, secret.number);
    if 1 <= |t| <= 4 && AllDigits(t) {
      PaddedEqualIffSameValue(t, secret.number);
    }
  }

  /** Padding a string of at most four digits gives four digits of the same value. */
  lemma PaddedValue(t: string)
    requires |t| <= 4 && AllDigits(t)
    ensures |Pad4(t)| == 4 && AllDigits(Pad4(t))
    ensures DecimalValue(Pad4(t)) == DecimalValue(t)
  {
    assert Pad4(t) == Zeros(4 - |t|) + t;
    LeadingZeros(4 - |t|, t);
  }

  /**
   A guess of one to four digits and a number below 10000 have the same
   zero-padded form exactly when the guess denotes that number.
   */
  lemma PaddedEqualIffSameValue(t: string, n: nat)
    requires 1 <= |t| <= 4 && AllDigits(t) && n < 10000
    ensures Pad4(t) == Pad4(NatToString(n)) <==> DecimalValue(t) == n
  {
    var r := NatToString(n);
    assert Pow10(4) == 10000;
    RenderingAtMost(n, 4);
    PaddedValue(t);
    PaddedValue(r);
    if Pad4(t) != Pad4(r) && DecimalValue(t) == n {
      DecimalValueInjective(Pad4(t), Pad4(r));
    }
  }

  /**
   With the zero-padded secret, every scored round counts bulls and cows by
   the rules of the game, applied to the secret's four chosen digits and the
   zero-padded guess.
   */
  lemma PaddedSecretScoresByRules(draws: seq<Digit>, line: string)
    requires |Dedup(draws)| >= 4
    ensures var secret := NewSecretPadded(draws);
      var digits := DigitChars(Dedup(draws)[..4]);
      var t := TrimLineEnd(line);
      Round(secret, line).Nope? ==>
        Round(secret, line) == Nope(|RuleBulls(digits, Pad4(t))|, |RuleCows(digits, Pad4(t))|)
  {
    var secret := NewSecretPadded(draws);
    ScoreMatchesRules(secret.text, TrimLineEnd(line));
  }

  /** A round after which `run` reads no further line. */
  predicate Ends(o: Outcome) {
    o.Won? || o.Aborted?
  }

  /**
   `run` over a finite list of input lines: rounds are played in order and
   the session stops after the first win or abort; lines after it are never
   read.
   */
  function Play(secret: ChosenSecret, lines: seq<string>): (reports: seq<Outcome>)
    ensures |reports| <= |lines|
    ensures forall k :: 0 <= k < |reports| - 1 ==> !Ends(reports[k])
    ensures |reports| < |lines| ==> |reports| > 0 && Ends(reports[|reports| - 1])
  {
    if |lines| == 0 then []
    else
      var o := Round(secret, lines[0]);
      if Ends(o) then [o] else [o] + Play(secret, lines[1..])
  }

  /** Each report of a session is the round played on the line at the same index. */
  lemma {:induction false} PlayReportsRounds(secret: ChosenSecret, lines: seq<string>)
    ensures var reports := Play(secret, lines);
      forall k :: 0 <= k < |reports| ==> reports[k] == Round(secret, lines[k])
  {
    if |lines| > 0 && !Ends(Round(secret, lines[0])) {
      PlayReportsRounds(secret, lines[1..]);
      var rest := Play(secret, lines[1..]);
      forall k | 0 < k < |rest| + 1
        ensures Play(secret, lines)[k] == Round(secret, lines[k])
      {
        assert Play(secret, lines)[k] == rest[k - 1];
        assert lines[1..][k - 1] == lines[k];
      }
    }
  }

  /** The first round of a session, given its outcome. */
  lemma PlayStep(secret: ChosenSecret, lines: seq<string>, o: Outcome)
    requires |lines| > 0 && Round(secret, lines[0]) == o
    ensures Play(secret, lines) == if Ends(o) then [o] else [o] + Play(secret, lines[1..])
  {
  }

  /** A miss followed by a win ends the session after two rounds, whatever comes next. */
  lemma MissThenWin(secret: ChosenSecret, first: string, second: string, third: string, o: Outcome)
    requires Round(secret, first) == o && !Ends(o) && Round(secret, second) == Won
    ensures Play(secret, [first, second, third]) == [o, Won]
  {
    var lines := [first, second, third];
    PlayStep(secret, lines, o);
    assert lines[1..][0] == second;
    PlayStep(secret, lines[1..], Won);
  }

  /** The secret drawn from the digits 1, 2, 3, 4 in that order. */
  lemma SecretOf1234()
    ensures |Dedup([1, 2, 3, 4])| >= 4 && NewSecret([1, 2, 3, 4]) == ChosenSecret(1234, "1234")
  {
    DedupDistinct([1, 2, 3, 4]);
    var n := CreateRandomNumber([1, 2, 3, 4]);
    UnpackDigits(n);
    assert n == 1234;
  }

  /** A line holding four distinct digits and a line ending validates to its value. */
  lemma FourDigitLine(t: string)
    requires |t| == 4 && AllDigits(t) && Distinct(t)
    ensures TrimLineEnd(t + "\n") == t
    ensures Validate(t) == Ok(DecimalValue(t))
  {
    TrimIgnoresLineEndings(t, "\n");
    ValidateOkIff(t, DecimalValue(t));
  }

  /** A round with a valid guess other than the secret reports the score of the trimmed text. */
  lemma ScoredRound(secret: ChosenSecret, t: string, bulls: nat, cows: nat)
    requires |t| == 4 && AllDigits(t) && Distinct(t) && DecimalValue(t) != secret.number
    requires GetBullsAndCows(secret.text, t) == (bulls, cows)
    ensures Round(secret, t + "\n") == Nope(bulls, cows)
  {
    FourDigitLine(t);
  }

  /** Against secret 1234, "5678" is a valid miss with no bulls and no cows. */
  lemma MissWith5678()
    ensures Round(ChosenSecret(1234, "1234"), "5678\n") == Nope(0, 0)
  {
    FourDigitValue("5678");
    NoneShared();
    ScoredRound(ChosenSecret(1234, "1234"), "5678", 0, 0);
    assert "5678" + "\n" == "5678\n";
  }

  /** Against secret 1234, "1234" wins. */
  lemma WinWith1234()
    ensures Round(ChosenSecret(1234, "1234"), "1234\n") == Won
  {
    FourDigitValue("1234");
    FourDigitLine("1234");
    assert "1234" + "\n" == "1234\n";
  }

  /**
   Secret 1234: "5678" scores no bulls and no cows and play goes on; "1234"
   then wins and ends the session, so the line after it is never read.
   */
  lemma WinOnSecondGuess()
    ensures var secret := ChosenSecret(1234, "1234");
      Play(secret, ["5678\n", "1234\n", "9876\n"]) == [Nope(0, 0), Won]
  {
    MissWith5678();
    WinWith1234();
    MissThenWin(ChosenSecret(1234, "1234"), "5678\n", "1234\n", "9876\n", Nope(0, 0));
  }

  /** The secret drawn from the digits 0, 1, 2, 3: the number 123, rendered "123". */
  lemma SecretOf0123()
    ensures |Dedup([0, 1, 2, 3])| >= 4 && NewSecret([0, 1, 2, 3]) == ChosenSecret(123, "123")
  {
    DedupDistinct([0, 1, 2, 3]);
    var n := CreateRandomNumber([0, 1, 2, 3]);
    UnpackDigits(n);
    assert n == 123;
  }

  lemma DigitsOf0123()
    ensures DigitChars([0, 1, 2, 3]) == "0123"
  {
    var s := DigitChars([0, 1, 2, 3]);
    DigitValueInjective(s[0], '0');
    DigitValueInjective(s[1], '1');
    DigitValueInjective(s[2], '2');
    DigitValueInjective(s[3], '3');
  }

  /** Against secret 123, "0123" wins: the numeric check comes before any scoring. */
  lemma WinWith0123()
    ensures Round(ChosenSecret(123, "123"), "0123\n") == Won
  {
    FourDigitValue("0123");
    FourDigitLine("0123");
    assert "0123" + "\n" == "0123\n";
  }

  /** Against secret 123, "0124" is scored against the three-character string "123". */
  lemma MissWith0124()
    ensures Round(ChosenSecret(123, "123"), "0124\n") == Nope(0, 2)
  {
    FourDigitValue("0124");
    ScoreAgainstThreeCharacters();
    ScoredRound(ChosenSecret(123, "123"), "0124", 0, 2);
    assert "0124" + "\n" == "0124\n";
  }

  /**
   Secret 123 rendered "123": "0123" wins through the numeric check, but
   "0124" gets no bulls and two cows, where the digits 0, 1, 2 of the guess
   sit at the same places as in the secret's digits 0, 1, 2, 3 and score
   three bulls when compared with them.
   */
  lemma LeadingZeroSecret()
    ensures |Dedup([0, 1, 2, 3])| >= 4 && NewSecret([0, 1, 2, 3]) == ChosenSecret(123, "123")
    ensures var secret := ChosenSecret(123, "123");
      && Round(secret, "0123\n") == Won
      && Round(secret, "0124\n") == Nope(0, 2)
      && GetBullsAndCows(DigitChars([0, 1, 2, 3]), "0124") == (3, 0)
  {
    SecretOf0123();
    WinWith0123();
    MissWith0124();
    DigitsOf0123();
    ThreeBullsWith0124();
  }

  /**
   At end of input `read_line` leaves the buffer empty, and the empty line is
   a parse error: every further read asks again, so a session whose input has
   ended never stops.
   */
  lemma {:induction false} EndOfInputNeverEnds(secret: ChosenSecret, n: nat)
    ensures Round(secret, "") == TryAgain(Parse)
    ensures Play(secret, seq(n, k => "")) == seq(n, k => TryAgain(Parse))
  {
    ParseFailsFirst("");
    var lines := seq(n, k => "");
    if n > 0 {
      EndOfInputNeverEnds(secret, n - 1);
      assert lines[1..] == seq(n - 1, k => "");
      PlayStep(secret, lines, TryAgain(Parse));
      assert [TryAgain(Parse)] + seq(n - 1, k => TryAgain(Parse)) == seq(n, k => TryAgain(Parse));
    }
  }

  /** Each line read, or `None` once the input has ended. */
  function AsInput(lines: seq<string>): (inputs: seq<Option<string>>)
    ensures |inputs| == |lines|
    ensures forall k :: 0 <= k < |lines| ==> inputs[k] == Some(lines[k])
  {
    seq(|lines|, k requires 0 <= k < |lines| => Some(lines[k]))
  }

  /**
   Corrected session: the end of input ends the session instead of being read
   as an empty guess. No round is played on or after the end of input.
   */
  function PlayInput(secret: ChosenSecret, inputs: seq<Option<string>>): (reports: seq<Outcome>)
    ensures |reports| <= |inputs|
    ensures forall k :: 0 <= k < |reports| ==> inputs[k].Some?
    ensures forall k :: 0 <= k < |reports| - 1 ==> !Ends(reports[k])
    ensures |reports| < |inputs| ==>
      inputs[|reports|].None? || (|reports| > 0 && Ends(reports[|reports| - 1]))
  {
    if |inputs| == 0 then []
    else
      match inputs[0]
      case None => []
      case Some(line) =>
        var o := Round(secret, line);
        if Ends(o) then [o] else [o] + PlayInput(secret, inputs[1..])
  }

  /** While the input has not ended, the corrected session plays exactly as `run`. */
  lemma {:induction false} PlayInputAgreesWithPlay(secret: ChosenSecret, lines: seq<string>)
    ensures PlayInput(secret, AsInput(lines)) == Play(secret, lines)
  {
    if |lines| > 0 {
      assert AsInput(lines)[1..] == AsInput(lines[1..]);
      PlayInputAgreesWithPlay(secret, lines[1..]);
    }
  }

  /**
   When the input ends after some lines, the corrected session reports
   exactly what `run` reports on those lines, and nothing read after the end
   of input matters.
   */
  lemma {:induction false} PlayInputUntilEnd(secret: ChosenSecret, lines: seq<string>, rest: seq<Option<string>>)
    ensures PlayInput(secret, AsInput(lines) + [None] + rest) == Play(secret, lines)
  {
    var inputs := AsInput(lines) + [None] + rest;
    if |lines| > 0 {
      assert inputs[0] == Some(lines[0]);
      assert inputs[1..] == AsInput(lines[1..]) + [None] + rest;
      PlayInputUntilEnd(secret, lines[1..], rest);
    } else {
      assert inputs[0] == None;
    }
  }
}
