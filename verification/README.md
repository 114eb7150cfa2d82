# Bulls and Cows: a Dafny model of the game's core

This project models the core of `bulls_and_cows`, a Rust command-line game
of Bulls and Cows (https://rosettacode.org/wiki/Bulls_and_cows). The program
picks a secret number made of four distinct digits. The player then guesses,
and each guess is scored as bulls (right digit, right place) and cows (right
digit, wrong place) until the guess equals the secret.

The model covers the four pieces of `src/lib.rs` that hold logic:

- **Secret generation** (`create_random_number`, `ChosenSecret::new`).
  Module `SecretGenerator`, plus `NewSecret` in `GameSession`. The random die
  is replaced by a finite sequence of injected draws. The model keeps the
  first four distinct draws and packs them into a number. The secret's string
  is `number.to_string()`, which has no leading zero.
- **Input validation** (`validate_input`). Module `InputValidator`. The input
  is parsed as a `u32` first, then scanned index by index. At each index a
  repeated digit is checked before the length. The result is `Ok(value)`,
  `Err(Parse)`, `Err(Invalid(reason))`, or `Panic`. `Panic` stands for the
  abort that `to_digit(10).unwrap()` raises on a leading `'+'`: the `u32`
  parser accepts `"+12"`, but `'+'` is not a digit.
- **Scoring** (`get_bulls_and_cows`). Module `Scorer`. The guess is
  left-padded with `'0'` to width four. Each position is looked up in the
  secret string by first occurrence.
- **One round of the session** (the body of the loop in `run`). Module
  `GameSession`. A round trims trailing CR/LF and validates the guess. A valid
  guess equal to the secret number wins. Any other valid guess is scored as
  trimmed text against the secret string. `Play` folds rounds over a finite
  list of input lines and stops at the first win or abort.

Shared vocabulary lives in `Digits`: decimal strings, their values, and
Rust's `u32::to_string`. `Wrappers` holds `Option`.

`ChosenSecret::new` documents the number as "4 digit long"
(src/lib.rs:127-128), and `run` prints it with `{:04}` (src/lib.rs:145). The
code, however, renders the secret's string with `number.to_string()`
(src/lib.rs:134), which is not padded. The model follows the code. See
"## Findings" for what this does to scoring.

Some definitions carry their facts in lemmas rather than in their own
contracts. `Digits.DigitValue` (`to_digit(10).unwrap()`, src/lib.rs:74) is
defined by its one-line body, the character's distance from `'0'`;
`Digits.DigitChar` is its inverse and `Digits.DigitValueInjective` says no
two digits share a value. `SecretGenerator.Pack` (src/lib.rs:51) is
described by `PackDigits` and `UnpackDigits`. `InputValidator.Scan`, the loop
at src/lib.rs:72-82, is described in closed form by `ScanDigits`.

## Model

| member | source | states |
|---|---|---|
| SecretGenerator.Dedup | src/lib.rs:43-46 | reference for the sampling loop: the distinct draws in order of first occurrence; no repeats, and exactly the values drawn |
| SecretGenerator.Collect | src/lib.rs:41-50 | the sampling loop only appends: the chosen slots are a prefix of the result, at most four are filled, distinct slots stay distinct, and every slot holds a drawn value |
| SecretGenerator.CollectKeepsFirstDistinct | src/lib.rs:41-50 | the rejection-sampling loop keeps exactly the first four distinct draws, in the order drawn (all of them if fewer exist) |
| SecretGenerator.PackDigits | src/lib.rs:51 | packing four digits gives a number below 10000 whose thousands, hundreds, tens and units digits are those four, in order |
| SecretGenerator.UnpackDigits | src/lib.rs:51 | every number below 10000 is the packing of its own four digits |
| SecretGenerator.CreateRandomNumber | src/lib.rs:35-51 | given draws with four distinct digits, the number is below 10000 (the unit test at line 177); its four digits are the first four distinct draws in order and are pairwise distinct; a leading 0 is allowed |
| Digits.NatToString | src/lib.rs:134 | `to_string` renders a number as ASCII digits with the number's value, starting with '0' only for 0, and one character only for numbers below 10 |
| Digits.RenderingWidth | src/lib.rs:134 | a number between 10^(k-1) and 10^k renders with exactly k characters |
| Digits.LeadingZeros | src/lib.rs:103 | the '0' fill added in front of a digit string does not change its value |
| GameSession.PaddedRendering | src/lib.rs:134 | the rendering of a packed secret, zero-padded to four, is its four digits in order |
| GameSession.SecretWidth | src/lib.rs:134 | the secret's string has three characters when the first chosen digit is 0, four otherwise |
| GameSession.RenderingFacts | src/lib.rs:129-135 | the secret number is the packing of the first four distinct draws; its string padded to four is their characters; string and padded string have distinct characters |
| GameSession.NewSecret | src/lib.rs:129-135 | `ChosenSecret::new`: number below 10000, string of digits denoting the number, padded string equal to the chosen digits, three characters when the first digit is 0, no repeated character |
| GameSession.NewSecretPadded | src/lib.rs:129-135 | corrected secret: its string is exactly the four chosen digits, distinct, and denotes the number |
| InputValidator.ParseU32 | src/lib.rs:71 | `str::parse::<u32>`: a successful parse yields the value of the digits after an optional leading '+', and that value never exceeds 4294967295; conversely one or more digits with a value up to 4294967295 parse to that value, with or without one leading '+', so a lone sign and an overflowing string are refused |
| InputValidator.Validate | src/lib.rs:68-84 | `validate_input` accepts exactly the strings of one to four ASCII digits with no repeated character, and returns the number they denote |
| InputValidator.ShortDigitsParse | src/lib.rs:71 | one to four ASCII digits always pass the `u32` parse, with the number they denote |
| InputValidator.ScanAccepts | src/lib.rs:72-83 | after a successful parse, the loop accepts exactly one to four distinct ASCII digits, returning their value |
| InputValidator.ScanDigits | src/lib.rs:72-82 | on digit input, the scan from a distinct prefix reports a repeat if the first five characters repeat, else a length error past four characters, else success |
| InputValidator.ValidateDecision | src/lib.rs:68-84 | the full decision, in the source's order: parse failure, panic on a leading '+', a repeat within the first five characters, more than four characters, else the parsed value |
| InputValidator.ValidateOkIff | src/lib.rs:68-84 | accepted exactly when the input is one to four ASCII digits with no repeated character; the value is the number they denote (both directions) |
| InputValidator.ParseFailsFirst | src/lib.rs:71 | a parse error happens exactly when the `u32` parse fails; empty input, a non-digit (other than one leading '+') and overflow are all parse errors, never rule errors |
| InputValidator.PanicsOnPlusSign | src/lib.rs:71-74 | validation aborts exactly when the input parses and starts with '+' |
| InputValidator.ErrorPrecedence | src/lib.rs:72-81 | for parseable digits, the repeat error is reported exactly when some index up to 4 repeats an earlier character, and the length error exactly when there are five or more characters and the first five are distinct |
| InputValidator.AcceptsFourDigits | src/lib.rs:65-66 | "1234" is accepted as 1234 |
| InputValidator.AcceptsShortGuess | src/lib.rs:191-192 | "234" is accepted as 234 |
| InputValidator.AcceptsLeadingZero | src/lib.rs:71-83 | "0123" is accepted as 123 |
| InputValidator.ParseErrorExamples | src/lib.rs:183-184 | "sd41" and the empty string are parse errors |
| InputValidator.RuleErrorExamples | src/lib.rs:185-188 | "1123" and "12341" give the repeat error; "12345" gives the length error |
| InputValidator.RepeatExample | src/lib.rs:60-64 | "1123" gives "Digits cannot be repeated" |
| InputValidator.LengthExample | src/lib.rs:187-188 | "12345" gives "Number has to have 4 digits" |
| InputValidator.RepeatAtFifthExample | src/lib.rs:75-81 | "12341" gives the repeat error, because at index 4 the repeat check runs before the length check |
| InputValidator.PanicExample | src/lib.rs:71-74 | "+12" parses, then aborts on the '+' |
| InputValidator.ValidateDigitsOnly | src/lib.rs:71-74 | corrected validation: it never aborts; where `validate_input` aborts it reports a parse error, and on every other input it agrees with `validate_input` |
| InputValidator.PlusSignRefused | src/lib.rs:71-74 | with the corrected validation, "+12" is a parse error |
| Scorer.Pad4 | src/lib.rs:103 | `{:0>4}`: the result is at least four characters, ends with the guess, and is '0' before it |
| Scorer.Find | src/lib.rs:106 | `position`: the index of the first occurrence of the character, or none when it is absent |
| Scorer.Tally | src/lib.rs:105-115 | the loop over a prefix of the padded guess counts at most one bull or cow per position |
| Scorer.TallyCounts | src/lib.rs:105-115 | the loop's counts are the sizes of the sets of bull positions (first match at the same index) and cow positions (first match elsewhere) |
| Scorer.GetBullsAndCows | src/lib.rs:100-117 | bulls plus cows never exceed the padded width, max(4, length of the guess) |
| Scorer.ScoreCounts | src/lib.rs:100-117 | bulls and cows are the numbers of bull and cow positions of the padded guess |
| Scorer.ClassifyPosition | src/lib.rs:105-113 | with a secret of distinct characters, a position is a bull exactly when the secret has the same character there, and a cow exactly when the secret has it at another index |
| Scorer.ScoreMatchesRules | src/lib.rs:100-117 | with a secret of distinct characters, the counts are those of the game's rules applied to the padded guess |
| Scorer.LongGuessUnpadded | src/lib.rs:103 | a guess of four or more characters is scored without padding |
| Scorer.AllBulls | src/lib.rs:91-94 | ("1234", "1234") scores (4, 0) |
| Scorer.AllCows | src/lib.rs:95-98 | ("1234", "4321") scores (0, 4) |
| Scorer.NoneShared | src/lib.rs:197 | ("1234", "5678") scores (0, 0) |
| Scorer.PaddedAllBulls | src/lib.rs:200 | ("0123", "123") scores (4, 0): the padding '0' is a bull |
| Scorer.PaddedBullAndCows | src/lib.rs:199 | ("0123", "312") scores (1, 3) |
| Scorer.ThreeBullsWith0124 | src/lib.rs:105-113 | ("0123", "0124") scores (3, 0) |
| Scorer.ScoreAgainstThreeCharacters | src/lib.rs:105-113 | ("123", "0124") scores (0, 2) |
| Scorer.RepeatedPaddingZeros | src/lib.rs:103-113 | ("1230", "12") scores (0, 4): the guess is padded to "0012" and each padding '0' is counted as a cow |
| GameSession.TrimLineEnd | src/lib.rs:151-152 | the result is a prefix of the line, does not end in CR or LF, and only CR and LF were removed |
| GameSession.TrimIgnoresLineEndings | src/lib.rs:151 | any run of CR/LF appended to a line trims away to the same text |
| GameSession.Round | src/lib.rs:147-165 | a round asks again exactly on a validation error (with that error), aborts exactly on the validation panic, wins exactly when validation yields the secret number, and is a miss exactly when validation yields another number; a miss reports the bulls and cows of the trimmed line against the secret's string, at most four in total |
| GameSession.RoundIgnoresLineEndings | src/lib.rs:150-153 | a round does not depend on the CR/LF characters that end the line |
| GameSession.PaddedEqualIffSameValue | src/lib.rs:158 | a guess of one to four digits and a number below 10000 have the same zero-padded form exactly when the guess denotes the number |
| GameSession.RoundWinIff | src/lib.rs:153-160 | a round is won exactly when the trimmed line is one to four distinct digits whose zero-padded form equals the zero-padded secret |
| GameSession.PaddedSecretScoresByRules | src/lib.rs:162 | with the corrected secret, a scored round reports the bulls and cows of the game's rules for the four chosen digits against the padded guess |
| GameSession.Play | src/lib.rs:146-166 | a session reads at most one line per round, stops after the first win or abort and nowhere else, and ends early only on a win or abort |
| GameSession.PlayReportsRounds | src/lib.rs:146-166 | the k-th report of a session is the round played on the k-th line |
| GameSession.ScoredRound | src/lib.rs:157-163 | a line of four distinct digits that is not the secret is reported with the score of its trimmed text |
| GameSession.SecretOf1234 | src/lib.rs:129-135 | draws 1, 2, 3, 4 give the secret 1234 with string "1234" |
| GameSession.MissWith5678 | src/lib.rs:157-163 | against 1234, the line "5678" is a miss with (0, 0) |
| GameSession.WinWith1234 | src/lib.rs:157-160 | against 1234, the line "1234" wins |
| GameSession.WinOnSecondGuess | src/lib.rs:146-166 | against 1234, the lines "5678", "1234", "9876" give a miss with (0, 0), then a win, and the third line is never read |
| GameSession.SecretOf0123 | src/lib.rs:129-135 | draws 0, 1, 2, 3 give the number 123 with string "123" |
| GameSession.WinWith0123 | src/lib.rs:157-160 | against 123, the line "0123" wins through the numeric check |
| GameSession.MissWith0124 | src/lib.rs:162 | against 123 rendered "123", the line "0124" is scored (0, 2) |
| GameSession.LeadingZeroSecret | src/lib.rs:134 | the secret drawn as 0, 1, 2, 3 is rendered "123"; "0123" wins, but "0124" scores (0, 2), where the chosen digits give (3, 0) |
| GameSession.EndOfInputNeverEnds | src/lib.rs:148-156 | the empty buffer left by `read_line` at end of input is a parse error, so any number of further reads all ask again and the session never ends |
| GameSession.PlayInput | src/lib.rs:146-166 | corrected session: no round is played on or after the end of input, at most one round per line, and it stops only after a win, an abort, or the end of input |
| GameSession.PlayInputAgreesWithPlay | src/lib.rs:146-166 | on input that never ends, the corrected session reports exactly what `run` does |
| GameSession.PlayInputUntilEnd | src/lib.rs:146-166 | when the input ends after some lines, the corrected session reports exactly what `run` reports on those lines, whatever follows the end |

## Left out

- The random die (`rand::thread_rng`, `Uniform::from(0..10)`). It is replaced by a finite sequence of draws in 0..9. `CreateRandomNumber` requires that the draws hold four distinct digits; on any other finite prefix the source keeps drawing.
- The sentinel `[10, 10, 10, 10]` of `create_random_number`. The model keeps only the filled slots, which gives the same result because no draw equals 10.
- Console I/O: `stdin().read_line`, `.expect`, and every `println!`. Lines are parameters of `Round` and `Play`. The reported outcome stands for the printed message.
- The unbounded `loop` in `run`. `Play` folds rounds over a finite list of lines. What happens at end of input is a row of "## Findings".
- Logging (`debug!`, `info!`), including the `{:04}` debug print of the secret.
- `thiserror` Display formatting. Only the error variant and the reason string are kept.
- `ParseIntError`'s kinds (empty, invalid digit, overflow). They all become `Parse`, which is all that `validate_input` distinguishes.
- src/main.rs, which handles argument parsing, logger set-up and the exit code.
- Determinism of scoring. Repeated scoring of the same pair gives the same result because `GetBullsAndCows` is a pure function. No lemma states it.
- Integer widths. Bulls and cows are `u32` in the source but can never exceed the padded width. Secrets stay below 10000. The only width that matters is the `u32` parse bound, which `ParseU32` models.

## Findings

| source | as written | input that shows it | evidently intended | confidence | as-written member | corrected member |
|---|---|---|---|---|---|---|
| src/lib.rs:134 | the secret string is `number.to_string()`, so a secret whose first digit is 0 is rendered with three characters, and scoring compares the padded guess with a string shifted by one place | draws 0, 1, 2, 3 (secret 123, string "123") and guess "0124": scored (0, 2) | the four-digit, zero-padded string "0123" (as `ChosenSecret::new` promises and the `{:04}` debug print shows), which scores (3, 0) | high; not executed | GameSession.LeadingZeroSecret | GameSession.PaddedSecretScoresByRules |
| src/lib.rs:74 | `c.to_digit(10).unwrap()` runs on every character of a string that `parse::<u32>` accepted, and that parse accepts one leading '+' | the guess "+12": it parses as 12, then `to_digit` on '+' panics and the program aborts | a leading '+' is refused like any other non-digit, and the player is asked again | high; not executed | InputValidator.PanicExample | InputValidator.ValidateDigitsOnly |
| src/lib.rs:148-156 | the result of `read_line` is not checked for end of input, which leaves the buffer empty | closing standard input during a game: each read gives "", a parse error, and the loop prints "Invalid input" forever | the game ends when the input ends | high; not executed | GameSession.EndOfInputNeverEnds | GameSession.PlayInput |

`GameSession.NewSecret` models the secret as written. `GameSession.NewSecretPadded` is the corrected secret. `Round` and `Play` take the secret as a parameter, so they work with either one. The property that `ChosenSecret::new` promises, scoring by the game's rules against the four chosen digits, is proved for the corrected secret.

`InputValidator.Validate` models `validate_input` as written, and `Round` uses it, so `Round` reports `Aborted` on "+12". `InputValidator.ValidateDigitsOnly` is the corrected validation; it differs from `Validate` only on the inputs where `Validate` aborts.

`Play` models `run` as written, reading one line per round. `GameSession.PlayInput` is the corrected session, which stops at the end of input. `PlayInputAgreesWithPlay` shows that it plays exactly like `Play` on input that never ends, and `PlayInputUntilEnd` that on input that ends it plays like `Play` on the lines before the end and then stops.
