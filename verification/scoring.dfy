/** The scorer: an entropy-derived base score less additive detector penalties, clamped to
    [0, 100], and the verdict bucket with its template warnings and suggestions.

    The messages of `analyze_password` are fixed localized texts. They are modelled as enumerations, one
    constructor per distinct text, so that the de-duplicator's equality on them is the
    equality of the texts: every text is distinct from every other except the two-factor
    suggestion, which three buckets share word for word and which is one constructor here. */
module Scoring {
  import opened Arith
  import opened Features
  import opened Detectors
  import opened Deduplication

  datatype Verdict = Empty | Weak | Fair | Strong | VeryStrong

  datatype Warning =
    | NoPasswordEntered
    | TooShortWarning
    | CommonPasswordWarning
    | KeyboardPatternWarning
    | LowDiversityWarning
    | AllDigitsWarning
    | WeakBucketRisk
    | FairBucketRisk

  datatype Suggestion =
    | EnterPasswordToEvaluate
    | TooShortSuggestion
    | CommonPasswordSuggestion
    | KeyboardPatternSuggestion
    | LowDiversitySuggestion
    | AllDigitsSuggestion
    | LengthenToTwelveOrSixteen
    | AvoidCommonWordsNamesDates
    | UniquePerSite
    | EnableTwoFactor
    | LengthenFurther
    | AddVariety
    | GenerateWithPasswordManager
    | KeepItUp
    | ManageWithPasswordManager
    | ExcellentUniqueAndTwoFactor
    | StoreInPasswordManager

  /** Entropy bands, upper-exclusive: below 28, 50 and 80 bits, that is, a keyspace
      below 2^28, 2^50 and 2^80. */
  const WeakBandBits: nat := 28
  const FairBandBits: nat := 50
  const StrongBandBits: nat := 80
  const WeakBandKeyspace: nat := 0x1000_0000
  const FairBandKeyspace: nat := 0x4_0000_0000_0000
  const StrongBandKeyspace: nat := 0x1_0000_0000_0000_0000_0000

  /** Base score from the entropy band the password falls in: 20, 45, 70 or 90 for an
      entropy below 28 bits, below 50, below 80, and from 80 on. */
  function BaseScore(charset: nat, length: nat): (b: int)
    ensures b == 20 <==> EntropyBelow(charset, length, WeakBandBits)
    ensures b == 45 <==> !EntropyBelow(charset, length, WeakBandBits) && EntropyBelow(charset, length, FairBandBits)
    ensures b == 70 <==> !EntropyBelow(charset, length, FairBandBits) && EntropyBelow(charset, length, StrongBandBits)
    ensures b == 90 <==> !EntropyBelow(charset, length, StrongBandBits)
  {
    BandKeyspaces();
    var keyspace := Keyspace(charset, length);
    if keyspace < WeakBandKeyspace then 20
    else if keyspace < FairBandKeyspace then 45
    else if keyspace < StrongBandKeyspace then 70
    else 90
  }

  /** The band keyspaces are the powers of two of the band bit counts. */
  lemma BandKeyspaces()
    ensures Pow(2, WeakBandBits) == WeakBandKeyspace
    ensures Pow(2, FairBandBits) == FairBandKeyspace
    ensures Pow(2, StrongBandBits) == StrongBandKeyspace
  {
    assert Pow(2, 10) == 0x400;
    assert Pow(2, 20) == 0x10_0000 by { PowAdd(2, 10, 10); }
    assert Pow(2, 28) == 0x1000_0000 by { PowAdd(2, 20, 8); }
    assert Pow(2, 40) == 0x100_0000_0000 by { PowAdd(2, 20, 20); }
    assert Pow(2, 50) == 0x4_0000_0000_0000 by { PowAdd(2, 40, 10); }
    assert Pow(2, 80) == 0x1_0000_0000_0000_0000_0000 by { PowAdd(2, 40, 40); }
  }

  /** A charset of 1 (no lower, upper, digit or symbol character, e.g. only letters of a
      caseless script, or the empty password) spans a single password at any length: zero
      bits, so the lowest band and base score 20 however long the password is. */
  lemma UnitCharsetHasNoEntropy(length: nat)
    ensures Keyspace(1, length) == 1
    ensures EntropyBelow(1, length, 1)
    ensures BaseScore(1, length) == 20
  {
    PowOfOne(length);
    assert Pow(2, 1) == 2;
    BandKeyspaces();
  }

  /** At least fourteen characters over a charset of at least 64 (all four classes give
      95) reach the top band: the keyspace is at least 64^14 = 2^84. */
  lemma TopBandWhenLongAndWide(charset: nat, length: nat)
    requires charset >= 64 && length >= 14
    ensures BaseScore(charset, length) == 90
  {
    PowMonotoneBase(64, charset, length);
    assert Pow(2, 6) == 64;
    PowMultiply(2, 6, length);
    PowAdd(2, StrongBandBits, 6 * length - StrongBandBits);
    var top, rest := Pow(2, StrongBandBits), Pow(2, 6 * length - StrongBandBits);
    MultiplyBoth(top, top, 1, rest);
    BandKeyspaces();
  }

  /** Penalty sizes per detector. */
  const CommonPenalty: nat := 25
  const TooShortPenalty: nat := 15
  const AllDigitsPenalty: nat := 15
  const PatternPenalty: nat := 10
  const LowDiversityPenalty: nat := 10

  /** Sum of the penalties of the detectors that fire. */
  function Penalty(f: Flags): (p: nat)
    ensures p <= CommonPenalty + TooShortPenalty + AllDigitsPenalty + PatternPenalty + LowDiversityPenalty
    ensures p == 0 <==> !f.common && !f.tooShort && !f.allDigits && !f.pattern && !f.lowDiversity
  {
    (if f.common then CommonPenalty else 0)
    + (if f.tooShort then TooShortPenalty else 0)
    + (if f.allDigits then AllDigitsPenalty else 0)
    + (if f.pattern then PatternPenalty else 0)
    + (if f.lowDiversity then LowDiversityPenalty else 0)
  }

  /** `max(lo, min(hi, x))`. */
  function Clamp(x: int, lo: int, hi: int): (r: int)
    requires lo <= hi
    ensures lo <= r <= hi
    ensures lo <= x <= hi ==> r == x
    ensures x < lo ==> r == lo
    ensures x > hi ==> r == hi
  {
    if x < lo then lo else if x > hi then hi else x
  }

  function Score(charset: nat, length: nat, f: Flags): (score: int)
    ensures 0 <= score <= 90
  {
    Clamp(BaseScore(charset, length) - Penalty(f), 0, 100)
  }

  /** Bucket thresholds, upper-exclusive. */
  const FairThreshold: int := 35
  const StrongThreshold: int := 65
  const VeryStrongThreshold: int := 85

  function VerdictOf(score: int): (v: Verdict)
    ensures v != Empty
    ensures v == Weak <==> score < FairThreshold
    ensures v == Fair <==> FairThreshold <= score < StrongThreshold
    ensures v == Strong <==> StrongThreshold <= score < VeryStrongThreshold
    ensures v == VeryStrong <==> VeryStrongThreshold <= score
  {
    if score < FairThreshold then Weak
    else if score < StrongThreshold then Fair
    else if score < VeryStrongThreshold then Strong
    else VeryStrong
  }

  /** Template warnings of a bucket: only the weak and fair buckets carry one. */
  function BucketWarnings(v: Verdict): (ws: seq<Warning>)
    ensures |ws| <= 1
    ensures ws != [] <==> v == Weak || v == Fair
  {
    match v
    case Weak => [WeakBucketRisk]
    case Fair => [FairBucketRisk]
    case _ => []
  }

  /** Template suggestions of a bucket: every verdict but "empty" has some, without repeats,
      and the shared two-factor text appears in the weak, fair and strong buckets. */
  function BucketSuggestions(v: Verdict): (ss: seq<Suggestion>)
    ensures ss == [] <==> v == Empty
    ensures EnableTwoFactor in ss <==> v == Weak || v == Fair || v == Strong
    ensures NoDuplicates(ss)
  {
    match v
    case Weak => [LengthenToTwelveOrSixteen, AvoidCommonWordsNamesDates, UniquePerSite, EnableTwoFactor]
    case Fair => [LengthenFurther, AddVariety, GenerateWithPasswordManager, EnableTwoFactor]
    case Strong => [KeepItUp, EnableTwoFactor, ManageWithPasswordManager]
    case VeryStrong => [ExcellentUniqueAndTwoFactor, StoreInPasswordManager]
    case Empty => []
  }

  /** Detector warnings, in the order `analyze_password` runs the detectors: at most one per
      detector, and none exactly when no penalty applies. */
  function DetectorWarnings(f: Flags): (ws: seq<Warning>)
    ensures |ws| <= 5
    ensures ws == [] <==> Penalty(f) == 0
  {
    (if f.tooShort then [TooShortWarning] else [])
    + (if f.common then [CommonPasswordWarning] else [])
    + (if f.pattern then [KeyboardPatternWarning] else [])
    + (if f.lowDiversity then [LowDiversityWarning] else [])
    + (if f.allDigits then [AllDigitsWarning] else [])
  }

  /** Detector suggestions, in the same order: every detector that fires adds a warning and a
      suggestion together, so there are as many suggestions as warnings. */
  function DetectorSuggestions(f: Flags): (ss: seq<Suggestion>)
    ensures |ss| == |DetectorWarnings(f)|
  {
    (if f.tooShort then [TooShortSuggestion] else [])
    + (if f.common then [CommonPasswordSuggestion] else [])
    + (if f.pattern then [KeyboardPatternSuggestion] else [])
    + (if f.lowDiversity then [LowDiversitySuggestion] else [])
    + (if f.allDigits then [AllDigitsSuggestion] else [])
  }

  /** Each detector's warning is listed exactly when the detector fires, and no bucket
      warning is. */
  lemma DetectorWarningsExact(f: Flags)
    ensures TooShortWarning in DetectorWarnings(f) <==> f.tooShort
    ensures CommonPasswordWarning in DetectorWarnings(f) <==> f.common
    ensures KeyboardPatternWarning in DetectorWarnings(f) <==> f.pattern
    ensures LowDiversityWarning in DetectorWarnings(f) <==> f.lowDiversity
    ensures AllDigitsWarning in DetectorWarnings(f) <==> f.allDigits
    ensures WeakBucketRisk !in DetectorWarnings(f) && FairBucketRisk !in DetectorWarnings(f)
    ensures NoPasswordEntered !in DetectorWarnings(f)
  {
  }

  /** Each detector's suggestion is listed exactly when the detector fires. */
  lemma DetectorSuggestionsExact(f: Flags)
    ensures TooShortSuggestion in DetectorSuggestions(f) <==> f.tooShort
    ensures CommonPasswordSuggestion in DetectorSuggestions(f) <==> f.common
    ensures KeyboardPatternSuggestion in DetectorSuggestions(f) <==> f.pattern
    ensures LowDiversitySuggestion in DetectorSuggestions(f) <==> f.lowDiversity
    ensures AllDigitsSuggestion in DetectorSuggestions(f) <==> f.allDigits
  {
  }

  /** Bucket templates never repeat a message and never contain a detector's message. */
  lemma BucketTemplatesDistinct(v: Verdict)
    ensures forall i, j :: 0 <= i < j < |BucketSuggestions(v)| ==> BucketSuggestions(v)[i] != BucketSuggestions(v)[j]
    ensures forall i, j :: 0 <= i < j < |BucketWarnings(v)| ==> BucketWarnings(v)[i] != BucketWarnings(v)[j]
    ensures forall s :: s in BucketSuggestions(v) ==> s !in DetectorSuggestions(Flags(true, true, true, true, true))
    ensures forall w :: w in BucketWarnings(v) ==> w !in DetectorWarnings(Flags(true, true, true, true, true))
  {
  }

  /** The detectors' messages never repeat. */
  lemma DetectorMessagesDistinct(f: Flags)
    ensures NoDuplicates(DetectorWarnings(f))
    ensures NoDuplicates(DetectorSuggestions(f))
  {
  }

  /** A bucket's templates followed by the detectors' messages never repeat, so
      de-duplicating them changes nothing. */
  lemma MergedTemplatesDistinct(v: Verdict, f: Flags)
    ensures NoDuplicates(BucketSuggestions(v) + DetectorSuggestions(f))
    ensures NoDuplicates(BucketWarnings(v) + DetectorWarnings(f))
  {
    BucketTemplatesDistinct(v);
    DetectorMessagesDistinct(f);
    var all := Flags(true, true, true, true, true);
    forall s | s in DetectorSuggestions(f)
      ensures s in DetectorSuggestions(all)
    {
    }
    forall w | w in DetectorWarnings(f)
      ensures w in DetectorWarnings(all)
    {
    }
    NoDuplicatesAppend(BucketSuggestions(v), DetectorSuggestions(f));
    NoDuplicatesAppend(BucketWarnings(v), DetectorWarnings(f));
  }

  /** No bucket template is one of the detectors' messages. */
  lemma BucketsHoldNoDetectorMessage(v: Verdict)
    ensures TooShortSuggestion !in BucketSuggestions(v) && CommonPasswordSuggestion !in BucketSuggestions(v)
    ensures KeyboardPatternSuggestion !in BucketSuggestions(v) && LowDiversitySuggestion !in BucketSuggestions(v)
    ensures AllDigitsSuggestion !in BucketSuggestions(v)
    ensures TooShortWarning !in BucketWarnings(v) && CommonPasswordWarning !in BucketWarnings(v)
    ensures KeyboardPatternWarning !in BucketWarnings(v) && LowDiversityWarning !in BucketWarnings(v)
    ensures AllDigitsWarning !in BucketWarnings(v)
  {
  }
}
