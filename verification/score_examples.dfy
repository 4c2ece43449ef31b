/**
 * Worked cases of the numeric step of the reply parser: ties, rounding,
 * stray characters and texts that Python's `float` rejects.
 */
module ScoreExamples {
  import opened Wrappers
  import opened Score

  /** The value of a three-digit string. */
  lemma ThreeDigits(s: string)
    requires |s| == 3 && AllDigits(s)
    ensures DigitsValue(s) == 100 * DigitValue(s[0]) + 10 * DigitValue(s[1]) + DigitValue(s[2])
  {
    var s1, s2 := s[..1], s[..2];
    assert s2[..1] == s1 && s[..|s| - 1] == s2 && s1[..0] == [];
    assert DigitsValue(s1) == DigitValue(s[0]);
    assert DigitsValue(s2) == 10 * DigitValue(s[0]) + DigitValue(s[1]);
  }

  /** A tie goes to the even neighbour: `round(72.5)` is 72 ... */
  lemma ParseScoreTieDown()
    ensures ParseScore("72.5") == "72"
  {
    assert Pow10(1) == 10;
    ThreeDigits("725");
    assert DigitsValue("72") == 72;
    ParseScoreOfLiteral("72.5", "72", "5", "72");
  }

  /** ... and `round(73.5)` is 74. */
  lemma ParseScoreTieUp()
    ensures ParseScore("73.5") == "74"
  {
    assert Pow10(1) == 10;
    ThreeDigits("735");
    assert DigitsValue("74") == 74;
    ParseScoreOfLiteral("73.5", "73", "5", "74");
  }

  /** Off a tie, the nearest integer: `round(64.6)` is 65 ... */
  lemma ParseScoreRoundsUp()
    ensures ParseScore("64.6") == "65"
  {
    assert Pow10(1) == 10;
    ThreeDigits("646");
    assert DigitsValue("65") == 65;
    ParseScoreOfLiteral("64.6", "64", "6", "65");
  }

  /** ... and `round(64.4)` is 64. */
  lemma ParseScoreRoundsDown()
    ensures ParseScore("64.4") == "64"
  {
    assert Pow10(1) == 10;
    ThreeDigits("644");
    assert DigitsValue("64") == 64;
    ParseScoreOfLiteral("64.4", "64", "4", "64");
  }

  /** Characters other than digits and points are dropped: "87%" is read as 87. */
  lemma ParseScorePercent()
    ensures ParseScore("87%") == "87"
  {
    assert "87%"[..2] == "87";
    assert KeepNumeric("87%") == KeepNumeric("87");
    assert NatToString(87) == "87";
    ParseScoreOfNatText(87);
  }

  /** Texts without a digit once filtered are no float literal and store "0" ... */
  lemma ParseScoreNoDigits()
    ensures ParseScore("N/A") == "0"
    ensures ParseScore("") == "0"
    ensures ParseScore(".") == "0"
  {
    assert "N/A"[..2] == "N/" && "N/"[..1] == "N";
    assert KeepNumeric("N/A") == "";
    assert !HasDigit(".");
  }

  /** ... and so does a text with two points. */
  lemma ParseScoreTwoPoints()
    ensures ParseScore("1.2.3") == "0"
  {
    assert KeepNumeric("1.2.3") == "1.2.3";
    assert !AtMostOneDot("1.2.3") by {
      assert "1.2.3"[1] == '.' && "1.2.3"[3] == '.';
    }
  }
}
