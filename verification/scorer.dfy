/**
 Scoring (`get_bulls_and_cows`): the guess is left-padded with '0' to width
 four, and each of its positions is looked up in the secret's string by first
 occurrence; a hit at the same index is a bull, a hit elsewhere a cow.
 */
module Scorer {
  import opened Wrappers
  import opened Digits

  /** `format!("{:0>4}", guess)`: left-pad with '0' to at least four characters. */
  function Pad4(g: string): (p: string)
    ensures |p| == if |g| >= 4 then |g| else 4
    ensures p[|p| - |g|..] == g
    ensures forall k :: 0 <= k < |p| - |g| ==> p[k] == '0'
  {
    if |g| >= 4 then g else Zeros(4 - |g|) + g
  }

  /** `s.chars().position(|x| x == c)`: the index of the first occurrence. */
  function Find(s: string, c: char): (r: Option<nat>)
    ensures r.Some? ==> r.value < |s| && s[r.value] == c && c !in s[..r.value]
    ensures r.None? ==> c !in s
  {
    if |s| == 0 then None
    else if s[0] == c then Some(0)
    else match Find(s[1..], c)
      case None => None
      case Some(i) =>
        assert s[..i + 1] == [s[0]] + s[1..][..i];
        Some(i + 1)
  }

  /** The positions among the first `k` of `p` that the loop counts as bulls. */
  ghost function BullPositions(s: string, p: string, k: nat): set<nat>
    requires k <= |p|
  {
    set j: nat | j < k && Find(s, p[j]) == Some(j)
  }

  /** The positions among the first `k` of `p` that the loop counts as cows. */
  ghost function CowPositions(s: string, p: string, k: nat): set<nat>
    requires k <= |p|
  {
    set j: nat | j < k && Find(s, p[j]).Some? && Find(s, p[j]).value != j
  }

  /** The loop over the first `k` characters of the padded guess `p`. */
  function Tally(s: string, p: string, k: nat): (r: (nat, nat))
    requires k <= |p|
    ensures r.0 + r.1 <= k
  {
    if k == 0 then (0, 0)
    else
      var (bulls, cows) := Tally(s, p, k - 1);
      var index := k - 1;
      match Find(s, p[index])
      case None => (bulls, cows)
      case Some(i) => if index == i then (bulls + 1, cows) else (bulls, cows + 1)
  }

  /** The loop counts exactly the bull and cow positions it has passed. */
  lemma {:induction false} TallyCounts(s: string, p: string, k: nat)
    requires k <= |p|
    ensures Tally(s, p, k) == (|BullPositions(s, p, k)|, |CowPositions(s, p, k)|)
  {
    if k == 0 {
      assert BullPositions(s, p, 0) == {} && CowPositions(s, p, 0) == {};
    } else {
      var index := k - 1;
      TallyCounts(s, p, index);
      var bulls, cows := BullPositions(s, p, index), CowPositions(s, p, index);
      assert index !in bulls && index !in cows;
      match Find(s, p[index])
      case None =>
        PositionsStep(s, p, k);
      case Some(i) =>
        PositionsStep(s, p, k);
        if i == index {
          assert |bulls + {index}| == |bulls| + 1;
        } else {
          assert |cows + {index}| == |cows| + 1;
        }
    }
  }

  /** Passing one more position adds it to the set it belongs to, and to no other. */
  lemma PositionsStep(s: string, p: string, k: nat)
    requires 0 < k <= |p|
    ensures Find(s, p[k - 1]).None? ==>
      BullPositions(s, p, k) == BullPositions(s, p, k - 1) &&
      CowPositions(s, p, k) == CowPositions(s, p, k - 1)
    ensures Find(s, p[k - 1]) == Some(k - 1) ==>
      BullPositions(s, p, k) == BullPositions(s, p, k - 1) + {k - 1} &&
      CowPositions(s, p, k) == CowPositions(s, p, k - 1)
    ensures Find(s, p[k - 1]).Some? && Find(s, p[k - 1]).value != k - 1 ==>
      BullPositions(s, p, k) == BullPositions(s, p, k - 1) &&
      CowPositions(s, p, k) == CowPositions(s, p, k - 1) + {k - 1}
  {
  }

  /**
   `get_bulls_and_cows(chosen_number, user_guess)`: every position of the
   padded guess is a bull, a cow or neither, so the two counts together never
   exceed the padded width.
   */
  function GetBullsAndCows(chosen: string, guess: string): (r: (nat, nat))
    ensures r.0 + r.1 <= if |guess| >= 4 then |guess| else 4
  {
    var padded := Pad4(guess);
    Tally(chosen, padded, |padded|)
  }

  /** The counts are the sizes of the bull and cow position sets of the padded guess. */
  lemma ScoreCounts(chosen: string, guess: string)
    ensures GetBullsAndCows(chosen, guess) ==
      (|BullPositions(chosen, Pad4(guess), |Pad4(guess)|)|,
       |CowPositions(chosen, Pad4(guess), |Pad4(guess)|)|)
  {
    TallyCounts(chosen, Pad4(guess), |Pad4(guess)|);
  }

  /** The bulls of the game's rules: positions where guess and secret agree. */
  ghost function RuleBulls(s: string, p: string): set<nat> {
    set i: nat | i < |p| && i < |s| && p[i] == s[i]
  }

  /** The cows of the game's rules: guess characters present in the secret, but elsewhere. */
  ghost function RuleCows(s: string, p: string): set<nat> {
    set i: nat | i < |p| && p[i] in s && !(i < |s| && p[i] == s[i])
  }

  /**
   With a secret of distinct characters, a padded-guess position is a bull
   exactly when the secret holds the same character at that index, and a cow
   exactly when the secret holds it at another index.
   */
  lemma ClassifyPosition(s: string, p: string, i: nat)
    requires Distinct(s) && i < |p|
    ensures i in BullPositions(s, p, |p|) <==> i < |s| && s[i] == p[i]
    ensures i in CowPositions(s, p, |p|) <==> exists j :: 0 <= j < |s| && j != i && s[j] == p[i]
  {
  }

  /**
   With a secret of distinct characters the counts are those of the rules of
   Bulls and Cows, applied to the padded guess.
   */
  lemma ScoreMatchesRules(s: string, g: string)
    requires Distinct(s)
    ensures GetBullsAndCows(s, g) == (|RuleBulls(s, Pad4(g))|, |RuleCows(s, Pad4(g))|)
  {
    var p := Pad4(g);
    ScoreCounts(s, g);
    forall i: nat
      ensures i in BullPositions(s, p, |p|) <==> i in RuleBulls(s, p)
      ensures i in CowPositions(s, p, |p|) <==> i in RuleCows(s, p)
    {
      if i < |p| {
        ClassifyPosition(s, p, i);
      }
    }
    assert BullPositions(s, p, |p|) == RuleBulls(s, p);
    assert CowPositions(s, p, |p|) == RuleCows(s, p);
  }

  /** A guess of four or more characters is scored as it is. */
  lemma LongGuessUnpadded(s: string, g: string)
    requires |g| >= 4
    ensures GetBullsAndCows(s, g) == Tally(s, g, |g|)
  {
  }

  /** The crate's doctest and unit test: a guess equal to the secret is four bulls. */
  lemma AllBulls()
    ensures GetBullsAndCows("1234", "1234") == (4, 0)
  {
    LongGuessUnpadded("1234", "1234");
    assert Find("1234", '1') == Some(0) && Find("1234", '2') == Some(1);
    assert Find("1234", '3') == Some(2) && Find("1234", '4') == Some(3);
  }

  /** The crate's doctest and unit test: the reversed secret is four cows. */
  lemma AllCows()
    ensures GetBullsAndCows("1234", "4321") == (0, 4)
  {
    LongGuessUnpadded("1234", "4321");
    assert Find("1234", '1') == Some(0) && Find("1234", '2') == Some(1);
    assert Find("1234", '3') == Some(2) && Find("1234", '4') == Some(3);
  }

  /** The crate's unit test: no shared digit scores nothing. */
  lemma NoneShared()
    ensures GetBullsAndCows("1234", "5678") == (0, 0)
  {
    LongGuessUnpadded("1234", "5678");
    assert Find("1234", '5') == None && Find("1234", '6') == None;
    assert Find("1234", '7') == None && Find("1234", '8') == None;
  }

  /** The short guess "123" is padded to "0123" and matches the secret "0123" exactly. */
  lemma PaddedAllBulls()
    ensures GetBullsAndCows("0123", "123") == (4, 0)
  {
    assert Pad4("123") == "0123";
    assert Find("0123", '0') == Some(0) && Find("0123", '1') == Some(1);
    assert Find("0123", '2') == Some(2) && Find("0123", '3') == Some(3);
  }

  /** The short guess "312" is padded to "0312": the padding '0' is a bull. */
  lemma PaddedBullAndCows()
    ensures GetBullsAndCows("0123", "312") == (1, 3)
  {
    assert Pad4("312") == "0312";
    assert Find("0123", '0') == Some(0) && Find("0123", '1') == Some(1);
    assert Find("0123", '2') == Some(2) && Find("0123", '3') == Some(3);
  }

  /** Three digits in place and one absent: three bulls. */
  lemma ThreeBullsWith0124()
    ensures GetBullsAndCows("0123", "0124") == (3, 0)
  {
    LongGuessUnpadded("0123", "0124");
    assert Find("0123", '0') == Some(0) && Find("0123", '1') == Some(1);
    assert Find("0123", '2') == Some(2) && Find("0123", '4') == None;
  }

  /** Against a three-character secret string the guess "0124" is off by one place. */
  lemma ScoreAgainstThreeCharacters()
    ensures GetBullsAndCows("123", "0124") == (0, 2)
  {
    LongGuessUnpadded("123", "0124");
    assert Find("123", '0') == None && Find("123", '1') == Some(0);
    assert Find("123", '2') == Some(1) && Find("123", '4') == None;
  }

  /**
   Padding a short guess can repeat '0', and each copy is scored on its own:
   the guess "12" against "1230" scores four cows although it names only
   three distinct digits.
   */
  lemma RepeatedPaddingZeros()
    ensures GetBullsAndCows("1230", "12") == (0, 4)
  {
    assert Pad4("12") == "0012";
    assert Find("1230", '0') == Some(3) && Find("1230", '1') == Some(0);
    assert Find("1230", '2') == Some(1);
  }
}
