/** Worked assessments of three concrete passwords under any tables that follow ASCII. Each
    is split in two: what the password's features are, and what the pipeline makes of any
    password with those features. */
module Examples {
  import opened Chars
  import opened Features
  import opened Detectors
  import opened Scoring
  import opened Estimator

  const CommonWord: string := "password"
  const DigitRun: string := "123456"
  const MixedRun: string := "Bb2!Bb2!Bb2!Bb2!Bb2!"

  /** A password of lower-case ASCII letters only draws on a charset of 26. */
  lemma LowerLettersCharset(t: CharTables, pw: string)
    requires AsciiFaithful(t) && |pw| > 0
    requires forall i :: 0 <= i < |pw| ==> 'a' <= pw[i] <= 'z'
    ensures CharsetSize(t, pw) == 26
  {
    assert t.isLower(pw[0]);
  }

  /** A password of ASCII digits only draws on a charset of 10. */
  lemma DigitsCharset(t: CharTables, pw: string)
    requires AsciiFaithful(t) && |pw| > 0
    requires forall i :: 0 <= i < |pw| ==> '0' <= pw[i] <= '9'
    ensures CharsetSize(t, pw) == 10
  {
    assert t.isDigit(pw[0]);
  }

  /** "password": lower letters only, common, and itself a keyboard fragment. Base 45 (26^8
      lies between 2^28 and 2^50) less 25 and 10 leaves 10: weak, with the weak bucket's
      warning and the common-password and keyboard-pattern ones; the weak bucket's four
      suggestions followed by the same two detectors'. */
  lemma AnalyzePassword(t: CharTables)
    requires AsciiFaithful(t)
    ensures Analyze(t, CommonWord).charsetSize == 26
    ensures Analyze(t, CommonWord).score == 10
    ensures Analyze(t, CommonWord).verdict == Weak
    ensures Analyze(t, CommonWord).warnings == [WeakBucketRisk, CommonPasswordWarning, KeyboardPatternWarning]
    ensures Analyze(t, CommonWord).suggestions
              == [LengthenToTwelveOrSixteen, AvoidCommonWordsNamesDates, UniquePerSite, EnableTwoFactor,
                  CommonPasswordSuggestion, KeyboardPatternSuggestion]
  {
    LowerLettersCharset(t, CommonWord);
    PasswordFlags(t);
    PasswordOutcome(t, CommonWord);
  }

  lemma PasswordFlags(t: CharTables)
    requires AsciiFaithful(t)
    ensures Detect(t, CommonWord) == Flags(false, true, true, false, false)
  {
    PasswordLowerFlags(t);
    ThreeDistinctChars(CommonWord, 'p', 'a', 's');
    assert !t.isDigit(CommonWord[0]);
  }

  /** The lower-cased word is itself: common, and the last keyboard fragment. */
  lemma PasswordLowerFlags(t: CharTables)
    requires AsciiFaithful(t)
    ensures Lower(t, CommonWord) in CommonPasswords
    ensures AnyFragmentIn(KeyboardPatterns, Lower(t, CommonWord))
  {
    var pw := CommonWord;
    LowerOfUncasedAscii(t, pw);
    assert ContainsSubstring(KeyboardPatterns[5], Lower(t, pw)) by {
      assert OccursAt(KeyboardPatterns[5], Lower(t, pw), 0);
    }
  }

  lemma PasswordOutcome(t: CharTables, pw: string)
    requires |pw| == 8 && CharsetSize(t, pw) == 26 && Detect(t, pw) == Flags(false, true, true, false, false)
    ensures Analyze(t, pw).charsetSize == 26
    ensures Analyze(t, pw).score == 10
    ensures Analyze(t, pw).verdict == Weak
    ensures Analyze(t, pw).warnings == [WeakBucketRisk, CommonPasswordWarning, KeyboardPatternWarning]
    ensures Analyze(t, pw).suggestions
              == [LengthenToTwelveOrSixteen, AvoidCommonWordsNamesDates, UniquePerSite, EnableTwoFactor,
                  CommonPasswordSuggestion, KeyboardPatternSuggestion]
  {
    assert Analyze(t, pw).charsetSize == 26 by { AnalyzeKeyspace(t, pw); }
    assert Analyze(t, pw).score == 10 by {
      PasswordBaseScore();
      AnalyzeScore(t, pw);
    }
    WeakMessages(t, pw);
    PasswordWarningList();
    PasswordSuggestionList();
  }

  /** 26^8 = 208827064576 lies between 2^28 and 2^50: the second band. */
  lemma PasswordBaseScore()
    ensures BaseScore(26, 8) == 45
  {
    assert Pow(26, 8) == 208827064576;
  }

  /** "123456": digits only, short, common and a keyboard fragment. The penalties (65)
      exceed the base score (20), so the score floors at 0; the warnings are the weak
      bucket's and four of the five detectors', and so are the suggestions. */
  lemma AnalyzeDigits(t: CharTables)
    requires AsciiFaithful(t)
    ensures Analyze(t, DigitRun).charsetSize == 10
    ensures Analyze(t, DigitRun).score == 0
    ensures Analyze(t, DigitRun).verdict == Weak
    ensures Analyze(t, DigitRun).warnings
              == [WeakBucketRisk, TooShortWarning, CommonPasswordWarning, KeyboardPatternWarning, AllDigitsWarning]
    ensures Analyze(t, DigitRun).suggestions
              == [LengthenToTwelveOrSixteen, AvoidCommonWordsNamesDates, UniquePerSite, EnableTwoFactor,
                  TooShortSuggestion, CommonPasswordSuggestion, KeyboardPatternSuggestion, AllDigitsSuggestion]
  {
    DigitsCharset(t, DigitRun);
    DigitsFlags(t);
    DigitsOutcome(t, DigitRun);
  }

  lemma DigitsFlags(t: CharTables)
    requires AsciiFaithful(t)
    ensures Detect(t, DigitRun) == Flags(true, true, true, false, true)
  {
    DigitsLowerFlags(t);
    ThreeDistinctChars(DigitRun, '1', '2', '3');
    assert forall i :: 0 <= i < |DigitRun| ==> t.isDigit(DigitRun[i]) by {
      assert forall i :: 0 <= i < |DigitRun| ==> '0' <= DigitRun[i] <= '9';
    }
  }

  /** The lower-cased digits are themselves: common, and holding the fragment "12345". */
  lemma DigitsLowerFlags(t: CharTables)
    requires AsciiFaithful(t)
    ensures Lower(t, DigitRun) in CommonPasswords
    ensures AnyFragmentIn(KeyboardPatterns, Lower(t, DigitRun))
  {
    var pw := DigitRun;
    assert forall i :: 0 <= i < |pw| ==> '0' <= pw[i] <= '9';
    LowerOfUncasedAscii(t, pw);
    assert ContainsSubstring(KeyboardPatterns[3], Lower(t, pw)) by {
      assert OccursAt(KeyboardPatterns[3], Lower(t, pw), 0);
    }
  }

  lemma DigitsOutcome(t: CharTables, pw: string)
    requires |pw| == 6 && CharsetSize(t, pw) == 10 && Detect(t, pw) == Flags(true, true, true, false, true)
    ensures Analyze(t, pw).charsetSize == 10
    ensures Analyze(t, pw).score == 0
    ensures Analyze(t, pw).verdict == Weak
    ensures Analyze(t, pw).warnings
              == [WeakBucketRisk, TooShortWarning, CommonPasswordWarning, KeyboardPatternWarning, AllDigitsWarning]
    ensures Analyze(t, pw).suggestions
              == [LengthenToTwelveOrSixteen, AvoidCommonWordsNamesDates, UniquePerSite, EnableTwoFactor,
                  TooShortSuggestion, CommonPasswordSuggestion, KeyboardPatternSuggestion, AllDigitsSuggestion]
  {
    assert Analyze(t, pw).charsetSize == 10 by { AnalyzeKeyspace(t, pw); }
    assert Analyze(t, pw).score == 0 by {
      assert BaseScore(10, 6) == 20;
      AnalyzeScore(t, pw);
    }
    WeakMessages(t, pw);
    DigitsWarningList();
    DigitsSuggestionList();
  }

  lemma PasswordWarningList()
    ensures [WeakBucketRisk] + DetectorWarnings(Flags(false, true, true, false, false))
              == [WeakBucketRisk, CommonPasswordWarning, KeyboardPatternWarning]
  {
  }

  lemma DigitsWarningList()
    ensures [WeakBucketRisk] + DetectorWarnings(Flags(true, true, true, false, true))
              == [WeakBucketRisk, TooShortWarning, CommonPasswordWarning, KeyboardPatternWarning, AllDigitsWarning]
  {
  }

  lemma PasswordSuggestionList()
    ensures [LengthenToTwelveOrSixteen, AvoidCommonWordsNamesDates, UniquePerSite, EnableTwoFactor]
              + DetectorSuggestions(Flags(false, true, true, false, false))
              == [LengthenToTwelveOrSixteen, AvoidCommonWordsNamesDates, UniquePerSite, EnableTwoFactor,
                  CommonPasswordSuggestion, KeyboardPatternSuggestion]
  {
  }

  lemma DigitsSuggestionList()
    ensures [LengthenToTwelveOrSixteen, AvoidCommonWordsNamesDates, UniquePerSite, EnableTwoFactor]
              + DetectorSuggestions(Flags(true, true, true, false, true))
              == [LengthenToTwelveOrSixteen, AvoidCommonWordsNamesDates, UniquePerSite, EnableTwoFactor,
                  TooShortSuggestion, CommonPasswordSuggestion, KeyboardPatternSuggestion, AllDigitsSuggestion]
  {
  }

  /** "Bb2!Bb2!Bb2!Bb2!Bb2!": twenty characters over all four classes on which no detector
      fires, so it meets every hypothesis of the long mixed-class case: charset 95, score 90,
      very strong, no warning and the two very-strong suggestions. */
  lemma AnalyzeMixed(t: CharTables)
    requires AsciiFaithful(t)
    ensures Analyze(t, MixedRun).charsetSize == 95
    ensures Analyze(t, MixedRun).score == 90
    ensures Analyze(t, MixedRun).verdict == VeryStrong
    ensures Analyze(t, MixedRun).warnings == []
    ensures Analyze(t, MixedRun).suggestions == [ExcellentUniqueAndTwoFactor, StoreInPasswordManager]
  {
    MixedClasses(t);
    MixedFlags(t);
    AnalyzeLongMixed(t, MixedRun);
  }

  /** Each class has a witness: 'b' lower, 'B' upper, '2' a digit, '!' a symbol. */
  lemma MixedClasses(t: CharTables)
    requires AsciiFaithful(t)
    ensures HasLower(t, MixedRun) && HasUpper(t, MixedRun) && HasDigit(t, MixedRun) && HasSymbol(t, MixedRun)
  {
    assert t.isUpper(MixedRun[0]) && t.isLower(MixedRun[1]) && t.isDigit(MixedRun[2]);
    assert !t.isAlnum(MixedRun[3]);
  }

  lemma MixedFlags(t: CharTables)
    requires AsciiFaithful(t)
    ensures Detect(t, MixedRun) == Flags(false, false, false, false, false)
  {
    MixedLowerFlags(t);
    ThreeDistinctChars(MixedRun, 'B', 'b', '2');
    assert !t.isDigit(MixedRun[0]);
  }

  /** Lower-cased, the password holds only 'b', '2' and '!': longer than every common
      password, and without the first character of any keyboard fragment. */
  lemma MixedLowerFlags(t: CharTables)
    requires AsciiFaithful(t)
    ensures Lower(t, MixedRun) !in CommonPasswords
    ensures !AnyFragmentIn(KeyboardPatterns, Lower(t, MixedRun))
  {
    assert forall i :: 0 <= i < |MixedRun| ==> MixedRun[i] in "Bb2!";
    LowerOfFourChars(t, MixedRun);
    FewCharsNoFlags(Lower(t, MixedRun));
  }

  /** Under tables that follow ASCII, a string over 'B', 'b', '2' and '!' lower-cases to one
      of the same length over 'b', '2' and '!'. */
  lemma LowerOfFourChars(t: CharTables, pw: string)
    requires AsciiFaithful(t)
    requires forall i :: 0 <= i < |pw| ==> pw[i] in "Bb2!"
    ensures |Lower(t, pw)| == |pw|
    ensures forall i :: 0 <= i < |pw| ==> Lower(t, pw)[i] in "b2!"
  {
    forall i | 0 <= i < |pw|
      ensures IsAscii(pw[i]) && AsciiToLower(pw[i]) in "b2!"
    {
      FourCharsLower(pw[i]);
    }
    LowerOfAscii(t, pw);
  }

  lemma FourCharsLower(c: char)
    requires c in "Bb2!"
    ensures IsAscii(c) && AsciiToLower(c) in "b2!"
  {
    assert c == 'B' || c == 'b' || c == '2' || c == '!';
  }

  /** A string over 'b', '2' and '!' of more than eight characters is not common and
      contains no keyboard fragment. */
  lemma FewCharsNoFlags(lowered: string)
    requires |lowered| > 8
    requires forall i :: 0 <= i < |lowered| ==> lowered[i] in "b2!"
    ensures lowered !in CommonPasswords
    ensures !AnyFragmentIn(KeyboardPatterns, lowered)
  {
    NoFragmentWithoutLeadChars(lowered);
    assert forall p :: p in CommonPasswords ==> |p| <= 8;
  }
}
