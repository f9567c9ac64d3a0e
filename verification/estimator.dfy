/** `analyze_password`: the whole pipeline from a password to its assessment. */
module Estimator {
  import opened Chars
  import opened Deduplication
  import opened Features
  import opened Detectors
  import opened Scoring
  import opened Humanizer
  import opened Crack

  /** The assessment. `keyspace` is `charset_size ** length`; `entropy_bits` of
      `AnalysisResult` is its base-2 logarithm. */
  datatype AnalysisResult = AnalysisResult(
    length: nat,
    charsetSize: nat,
    keyspace: nat,
    score: int,
    verdict: Verdict,
    warnings: seq<Warning>,
    suggestions: seq<Suggestion>,
    crackTimes: seq<CrackTime>)

  /** The terminal result for the empty password. */
  const EmptyResult: AnalysisResult := AnalysisResult(
    0, 1, 1, 0, Empty, [NoPasswordEntered], [EnterPasswordToEvaluate], [])

  /** Warnings of a non-empty password: bucket warnings first when the score is below the
      strong threshold, then the detectors', de-duplicated. Every such message is listed once
      and nothing else is. */
  function MergedWarnings(score: int, verdict: Verdict, f: Flags): (ws: seq<Warning>)
    ensures NoDuplicates(ws)
    ensures forall w :: w in ws <==>
              (score < StrongThreshold && w in BucketWarnings(verdict)) || w in DetectorWarnings(f)
  {
    var merged := if score < StrongThreshold then BucketWarnings(verdict) + DetectorWarnings(f)
                  else DetectorWarnings(f);
    DedupeSameElements(merged);
    Dedupe(merged)
  }

  /** Suggestions of a non-empty password: bucket suggestions first, then the detectors',
      de-duplicated. The bucket's suggestions open the list, every such message is listed
      once and nothing else is. */
  function MergedSuggestions(verdict: Verdict, f: Flags): (ss: seq<Suggestion>)
    ensures NoDuplicates(ss)
    ensures forall s :: s in ss <==> s in BucketSuggestions(verdict) || s in DetectorSuggestions(f)
    ensures |BucketSuggestions(verdict)| <= |ss| && ss[..|BucketSuggestions(verdict)|] == BucketSuggestions(verdict)
  {
    var bucket, detected := BucketSuggestions(verdict), DetectorSuggestions(f);
    DedupeSameElements(bucket + detected);
    DedupeAppendPrefix(bucket, detected);
    DedupeOfDistinct(bucket);
    Dedupe(bucket + detected)
  }

  /** The assessment of a non-empty password of this length, charset and detector flags:
      score, verdict, merged messages and crack times. */
  function Assess(length: nat, charset: nat, f: Flags): (r: AnalysisResult)
    requires 1 <= charset
    ensures r.length == length && r.charsetSize == charset
    ensures 0 <= r.score <= 90
    ensures NoDuplicates(r.warnings) && NoDuplicates(r.suggestions)
  {
    GuessRatesIncreasing();
    var score := Score(charset, length, f);
    var verdict := VerdictOf(score);
    AnalysisResult(
      length, charset, Keyspace(charset, length), score, verdict,
      MergedWarnings(score, verdict, f),
      MergedSuggestions(verdict, f),
      CrackTimes(GuessRates, length, charset))
  }

  function Analyze(t: CharTables, pw: string): (r: AnalysisResult)
    ensures r.length == |pw|
    ensures 1 <= r.charsetSize <= 95
    ensures 0 <= r.score <= 100
    ensures NoDuplicates(r.warnings) && NoDuplicates(r.suggestions)
  {
    if |pw| == 0 then EmptyResult
    else Assess(|pw|, CharsetSize(t, pw), Detect(t, pw))
  }

  /** The empty password takes the terminal branch: nothing is detected, scored or timed. */
  lemma AnalyzeEmpty(t: CharTables)
    ensures Analyze(t, "").length == 0 && Analyze(t, "").charsetSize == 1
    ensures Analyze(t, "").keyspace == 1
    ensures Analyze(t, "").score == 0 && Analyze(t, "").verdict == Empty
    ensures Analyze(t, "").warnings == [NoPasswordEntered]
    ensures Analyze(t, "").suggestions == [EnterPasswordToEvaluate]
    ensures Analyze(t, "").crackTimes == []
  {
  }

  /** The score is the band's base score less the penalties, floored at 0: the base score
      never exceeds 90, so the upper clamp at 100 never binds. With no detector firing the
      score is the base score. */
  lemma AssessScore(length: nat, charset: nat, f: Flags)
    requires 1 <= charset
    ensures Assess(length, charset, f).keyspace == Pow(charset, length)
    ensures Assess(length, charset, f).score + Penalty(f) >= BaseScore(charset, length)
    ensures Assess(length, charset, f).score > 0 ==>
              Assess(length, charset, f).score + Penalty(f) == BaseScore(charset, length)
    ensures Assess(length, charset, f).score <= BaseScore(charset, length)
  {
  }

  /** The verdict is decided by the score thresholds alone. */
  lemma AssessVerdict(length: nat, charset: nat, f: Flags)
    requires 1 <= charset
    ensures Assess(length, charset, f).verdict == Weak <==> Assess(length, charset, f).score < 35
    ensures Assess(length, charset, f).verdict == Fair <==> 35 <= Assess(length, charset, f).score < 65
    ensures Assess(length, charset, f).verdict == Strong <==> 65 <= Assess(length, charset, f).score < 85
    ensures Assess(length, charset, f).verdict == VeryStrong <==> 85 <= Assess(length, charset, f).score
  {
  }

  /** The suggestions are the bucket's templates followed by the detectors', in the
      order `analyze_password` appends them and each once. */
  lemma AssessSuggestions(length: nat, charset: nat, f: Flags)
    requires 1 <= charset
    ensures Assess(length, charset, f).suggestions
              == BucketSuggestions(Assess(length, charset, f).verdict) + DetectorSuggestions(f)
  {
    var v := Assess(length, charset, f).verdict;
    MergedTemplatesDistinct(v, f);
    DedupeOfDistinct(BucketSuggestions(v) + DetectorSuggestions(f));
  }

  /** The warnings are the bucket's template warning, only below the strong threshold,
      followed by the detectors', in the order `analyze_password` appends them and each once. */
  lemma AssessWarnings(length: nat, charset: nat, f: Flags)
    requires 1 <= charset
    ensures Assess(length, charset, f).warnings
              == (if Assess(length, charset, f).score < 65 then BucketWarnings(Assess(length, charset, f).verdict) else [])
                 + DetectorWarnings(f)
  {
    var r := Assess(length, charset, f);
    MergedTemplatesDistinct(r.verdict, f);
    DetectorMessagesDistinct(f);
    if r.score < 65 {
      DedupeOfDistinct(BucketWarnings(r.verdict) + DetectorWarnings(f));
    } else {
      DedupeOfDistinct(DetectorWarnings(f));
      assert [] + DetectorWarnings(f) == DetectorWarnings(f);
    }
  }

  /** For a non-empty password there is one crack-time entry per guess rate, in table order,
      each the humanised half-keyspace over that rate, and a faster attacker's entry never
      shows more seconds than a slower one's. */
  lemma AssessCrackTimes(length: nat, charset: nat, f: Flags)
    requires 1 <= charset
    ensures |Assess(length, charset, f).crackTimes| == |GuessRates|
    ensures forall k :: 0 <= k < |GuessRates| ==> Assess(length, charset, f).crackTimes[k].model == GuessRates[k].model
    ensures forall k :: 0 <= k < |GuessRates| ==>
              Assess(length, charset, f).crackTimes[k].duration
                == Humanize(Pow(charset, length) / (2 * GuessRates[k].perSecond))
    ensures forall i, j :: 0 <= i < j < |GuessRates| ==>
              DurationSeconds(Assess(length, charset, f).crackTimes[j].duration)
                <= DurationSeconds(Assess(length, charset, f).crackTimes[i].duration)
  {
    GuessRatesIncreasing();
    assert Assess(length, charset, f).crackTimes == CrackTimes(GuessRates, length, charset);
    GuessRateCrackTimes(length, charset);
  }

  /** A non-empty password's charset is inferred from its characters and its keyspace is
      that charset to the power of its length. */
  lemma AnalyzeKeyspace(t: CharTables, pw: string)
    requires |pw| > 0
    ensures Analyze(t, pw).charsetSize == CharsetSize(t, pw)
    ensures Analyze(t, pw).keyspace == Pow(CharsetSize(t, pw), |pw|)
  {
    AssessScore(|pw|, CharsetSize(t, pw), Detect(t, pw));
  }

  /** For a non-empty password the score is the base score of the password's entropy band
      less the penalties of the detectors that fire on it, floored at 0. */
  lemma AnalyzeScore(t: CharTables, pw: string)
    requires |pw| > 0
    ensures Analyze(t, pw).score <= BaseScore(CharsetSize(t, pw), |pw|)
    ensures Analyze(t, pw).score + Penalty(Detect(t, pw)) >= BaseScore(CharsetSize(t, pw), |pw|)
    ensures Analyze(t, pw).score > 0 ==>
              Analyze(t, pw).score + Penalty(Detect(t, pw)) == BaseScore(CharsetSize(t, pw), |pw|)
    ensures 0 <= Analyze(t, pw).score <= 90
  {
    AssessScore(|pw|, CharsetSize(t, pw), Detect(t, pw));
  }

  /** The verdict follows the score thresholds, the bucket suggestions open the suggestions,
      and the bucket warning opens the warnings exactly when the score is below the strong
      threshold. */
  lemma AnalyzeVerdictAndBucket(t: CharTables, pw: string)
    requires |pw| > 0
    ensures Analyze(t, pw).verdict == Weak <==> Analyze(t, pw).score < 35
    ensures Analyze(t, pw).verdict == Fair <==> 35 <= Analyze(t, pw).score < 65
    ensures Analyze(t, pw).verdict == Strong <==> 65 <= Analyze(t, pw).score < 85
    ensures Analyze(t, pw).verdict == VeryStrong <==> 85 <= Analyze(t, pw).score
    ensures |BucketSuggestions(Analyze(t, pw).verdict)| <= |Analyze(t, pw).suggestions|
    ensures Analyze(t, pw).suggestions[..|BucketSuggestions(Analyze(t, pw).verdict)|]
              == BucketSuggestions(Analyze(t, pw).verdict)
    ensures Analyze(t, pw).score < 65 ==>
              |Analyze(t, pw).warnings| >= 1 && Analyze(t, pw).warnings[0] in BucketWarnings(Analyze(t, pw).verdict)
    ensures Analyze(t, pw).score >= 65 ==> BucketWarnings(Analyze(t, pw).verdict) == []
  {
    var charset, f := CharsetSize(t, pw), Detect(t, pw);
    AssessVerdict(|pw|, charset, f);
    AssessSuggestions(|pw|, charset, f);
    AssessWarnings(|pw|, charset, f);
  }

  /** A detector's warning is listed exactly when the detector fires. */
  lemma AssessDetectorWarnings(length: nat, charset: nat, f: Flags)
    requires 1 <= charset
    ensures TooShortWarning in Assess(length, charset, f).warnings <==> f.tooShort
    ensures CommonPasswordWarning in Assess(length, charset, f).warnings <==> f.common
    ensures KeyboardPatternWarning in Assess(length, charset, f).warnings <==> f.pattern
    ensures LowDiversityWarning in Assess(length, charset, f).warnings <==> f.lowDiversity
    ensures AllDigitsWarning in Assess(length, charset, f).warnings <==> f.allDigits
  {
    var r := Assess(length, charset, f);
    AssessWarnings(length, charset, f);
    DetectorWarningsExact(f);
    BucketsHoldNoDetectorMessage(r.verdict);
  }

  /** A detector's suggestion is listed exactly when the detector fires. */
  lemma AssessDetectorSuggestions(length: nat, charset: nat, f: Flags)
    requires 1 <= charset
    ensures TooShortSuggestion in Assess(length, charset, f).suggestions <==> f.tooShort
    ensures CommonPasswordSuggestion in Assess(length, charset, f).suggestions <==> f.common
    ensures KeyboardPatternSuggestion in Assess(length, charset, f).suggestions <==> f.pattern
    ensures LowDiversitySuggestion in Assess(length, charset, f).suggestions <==> f.lowDiversity
    ensures AllDigitsSuggestion in Assess(length, charset, f).suggestions <==> f.allDigits
  {
    var r := Assess(length, charset, f);
    AssessSuggestions(length, charset, f);
    DetectorSuggestionsExact(f);
    BucketsHoldNoDetectorMessage(r.verdict);
  }

  /** The final lists of a non-empty password: the bucket's templates (its warning only below
      the strong threshold) followed by the detectors' messages, each once. */
  lemma AnalyzeMessages(t: CharTables, pw: string)
    requires |pw| > 0
    ensures Analyze(t, pw).suggestions
              == BucketSuggestions(Analyze(t, pw).verdict) + DetectorSuggestions(Detect(t, pw))
    ensures Analyze(t, pw).warnings
              == (if Analyze(t, pw).score < 65 then BucketWarnings(Analyze(t, pw).verdict) else [])
                 + DetectorWarnings(Detect(t, pw))
  {
    AssessSuggestions(|pw|, CharsetSize(t, pw), Detect(t, pw));
    AssessWarnings(|pw|, CharsetSize(t, pw), Detect(t, pw));
  }

  /** A weak password's messages: the weak bucket's risk warning followed by the detectors'
      warnings, and the weak bucket's four suggestions followed by the detectors'. */
  lemma WeakMessages(t: CharTables, pw: string)
    requires |pw| > 0 && Analyze(t, pw).score < 35
    ensures Analyze(t, pw).verdict == Weak
    ensures Analyze(t, pw).warnings == [WeakBucketRisk] + DetectorWarnings(Detect(t, pw))
    ensures Analyze(t, pw).suggestions
              == [LengthenToTwelveOrSixteen, AvoidCommonWordsNamesDates, UniquePerSite, EnableTwoFactor]
                 + DetectorSuggestions(Detect(t, pw))
  {
    AnalyzeVerdictAndBucket(t, pw);
    AnalyzeMessages(t, pw);
  }

  /** A detector's warning appears in the result exactly when its condition holds of the
      password. */
  lemma AnalyzeDetectorWarnings(t: CharTables, pw: string)
    requires |pw| > 0
    ensures TooShortWarning in Analyze(t, pw).warnings <==> |pw| < 8
    ensures CommonPasswordWarning in Analyze(t, pw).warnings <==> Lower(t, pw) in CommonPasswords
    ensures KeyboardPatternWarning in Analyze(t, pw).warnings <==>
              exists k, i :: 0 <= k < |KeyboardPatterns| && OccursAt(KeyboardPatterns[k], Lower(t, pw), i)
    ensures LowDiversityWarning in Analyze(t, pw).warnings <==> |DistinctChars(pw)| <= 2 && |pw| >= 6
    ensures AllDigitsWarning in Analyze(t, pw).warnings <==> forall i :: 0 <= i < |pw| ==> t.isDigit(pw[i])
  {
    AssessDetectorWarnings(|pw|, CharsetSize(t, pw), Detect(t, pw));
  }

  /** A detector's suggestion appears in the result exactly when its condition holds of the
      password. */
  lemma AnalyzeDetectorSuggestions(t: CharTables, pw: string)
    requires |pw| > 0
    ensures TooShortSuggestion in Analyze(t, pw).suggestions <==> |pw| < 8
    ensures CommonPasswordSuggestion in Analyze(t, pw).suggestions <==> Lower(t, pw) in CommonPasswords
    ensures KeyboardPatternSuggestion in Analyze(t, pw).suggestions <==>
              exists k, i :: 0 <= k < |KeyboardPatterns| && OccursAt(KeyboardPatterns[k], Lower(t, pw), i)
    ensures LowDiversitySuggestion in Analyze(t, pw).suggestions <==> |DistinctChars(pw)| <= 2 && |pw| >= 6
    ensures AllDigitsSuggestion in Analyze(t, pw).suggestions <==> forall i :: 0 <= i < |pw| ==> t.isDigit(pw[i])
  {
    AssessDetectorSuggestions(|pw|, CharsetSize(t, pw), Detect(t, pw));
  }

  /** A password of at least fourteen characters drawing on all four classes, on which no
      detector fires, gets the top score of 90 and the very-strong verdict, no warning, and
      only the very-strong bucket's suggestions. */
  lemma AnalyzeLongMixed(t: CharTables, pw: string)
    requires |pw| >= 14
    requires HasLower(t, pw) && HasUpper(t, pw) && HasDigit(t, pw) && HasSymbol(t, pw)
    requires Detect(t, pw) == Flags(false, false, false, false, false)
    ensures Analyze(t, pw).charsetSize == 95
    ensures Analyze(t, pw).score == 90
    ensures Analyze(t, pw).verdict == VeryStrong
    ensures Analyze(t, pw).warnings == []
    ensures Analyze(t, pw).suggestions == [ExcellentUniqueAndTwoFactor, StoreInPasswordManager]
  {
    TopBandWhenLongAndWide(95, |pw|);
    AnalyzeKeyspace(t, pw);
    AnalyzeScore(t, pw);
    AnalyzeVerdictAndBucket(t, pw);
    AnalyzeMessages(t, pw);
  }

  /** The crack times of a non-empty password: one per guess rate, labelled with its attacker
      model, in table order, a faster attacker never showing more seconds. */
  lemma AnalyzeCrackTimes(t: CharTables, pw: string)
    requires |pw| > 0
    ensures |Analyze(t, pw).crackTimes| == |GuessRates|
    ensures forall k :: 0 <= k < |GuessRates| ==> Analyze(t, pw).crackTimes[k].model == GuessRates[k].model
    ensures forall k :: 0 <= k < |GuessRates| ==>
              Analyze(t, pw).crackTimes[k].duration
                == Humanize(Analyze(t, pw).keyspace / (2 * GuessRates[k].perSecond))
    ensures forall i, j :: 0 <= i < j < |GuessRates| ==>
              DurationSeconds(Analyze(t, pw).crackTimes[j].duration)
                <= DurationSeconds(Analyze(t, pw).crackTimes[i].duration)
  {
    AssessCrackTimes(|pw|, CharsetSize(t, pw), Detect(t, pw));
  }
}
