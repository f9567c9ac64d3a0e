/** Crack-time estimation (`GUESS_RATES`, `_avg_crack_time_seconds`): for every attacker
    model, the expected seconds to find the password by guessing half of the keyspace. */
module Crack {
  import opened Arith
  import opened Features
  import opened Humanizer

  /** The attacker models, in declaration order: online throttled and unthrottled,
      offline on a CPU and on a GPU. */
  datatype AttackModel = OnlineThrottled | OnlineUnthrottled | OfflineCpu | OfflineGpu

  datatype GuessRate = GuessRate(model: AttackModel, perSecond: nat)

  const GuessRates: seq<GuessRate> := [
    GuessRate(OnlineThrottled, 10),
    GuessRate(OnlineUnthrottled, 100),
    GuessRate(OfflineCpu, 100_000_000),
    GuessRate(OfflineGpu, 10_000_000_000)
  ]

  predicate PositiveRates(rates: seq<GuessRate>) {
    forall k :: 0 <= k < |rates| ==> rates[k].perSecond > 0
  }

  /** `(keyspace / 2) / rate`, truncated to whole seconds as the humaniser does. */
  function AvgCrackSeconds(length: nat, charset: nat, rate: nat): (s: nat)
    requires rate > 0
    ensures s * (2 * rate) <= Keyspace(charset, length) < (s + 1) * (2 * rate)
  {
    Keyspace(charset, length) / (2 * rate)
  }

  /** A faster attacker never needs more seconds. */
  lemma CrackSecondsAntitone(length: nat, charset: nat, rate: nat, rate': nat)
    requires 0 < rate <= rate'
    ensures AvgCrackSeconds(length, charset, rate') <= AvgCrackSeconds(length, charset, rate)
  {
    var k := Keyspace(charset, length);
    var s := AvgCrackSeconds(length, charset, rate);
    var s' := AvgCrackSeconds(length, charset, rate');
    MultiplyBoth(s', s', 2 * rate, 2 * rate);
    assert s' * (2 * rate) <= s' * (2 * rate') <= k;
    if s' > s {
      MultiplyBoth(s + 1, s', 2 * rate, 2 * rate);
      assert false;
    }
  }

  /** A crack-time entry: the attacker model and the humanised duration. */
  datatype CrackTime = CrackTime(model: AttackModel, duration: Duration)

  /** The loop of `analyze_password` over the guess-rate table: one entry per rate, in table
      order. */
  function CrackTimes(rates: seq<GuessRate>, length: nat, charset: nat): (r: seq<CrackTime>)
    requires PositiveRates(rates)
    ensures |r| == |rates|
    ensures forall k :: 0 <= k < |r| ==>
              r[k] == CrackTime(rates[k].model, Humanize(AvgCrackSeconds(length, charset, rates[k].perSecond)))
  {
    if |rates| == 0 then []
    else [CrackTime(rates[0].model, Humanize(AvgCrackSeconds(length, charset, rates[0].perSecond)))]
         + CrackTimes(rates[1..], length, charset)
  }

  /** Between two entries, the one for the faster attacker never shows more seconds. */
  lemma CrackTimesOrdered(rates: seq<GuessRate>, length: nat, charset: nat, i: nat, j: nat)
    requires PositiveRates(rates)
    requires i < |rates| && j < |rates| && rates[i].perSecond <= rates[j].perSecond
    ensures DurationSeconds(CrackTimes(rates, length, charset)[j].duration)
              <= DurationSeconds(CrackTimes(rates, length, charset)[i].duration)
  {
    CrackSecondsAntitone(length, charset, rates[i].perSecond, rates[j].perSecond);
    HumanizeMonotone(AvgCrackSeconds(length, charset, rates[j].perSecond),
                     AvgCrackSeconds(length, charset, rates[i].perSecond));
  }

  /** The table's rates increase in declaration order. */
  lemma GuessRatesIncreasing()
    ensures PositiveRates(GuessRates)
    ensures forall i, j :: 0 <= i < j < |GuessRates| ==> GuessRates[i].perSecond < GuessRates[j].perSecond
  {
  }

  /** The crack times over `GUESS_RATES`: four entries in declaration order, each
      labelled with its attacker model and holding the humanised half-keyspace over that
      rate, and a faster attacker's entry never shows more seconds. */
  lemma GuessRateCrackTimes(length: nat, charset: nat)
    ensures PositiveRates(GuessRates)
    ensures |CrackTimes(GuessRates, length, charset)| == |GuessRates|
    ensures forall k :: 0 <= k < |GuessRates| ==>
              CrackTimes(GuessRates, length, charset)[k].model == GuessRates[k].model
    ensures forall k :: 0 <= k < |GuessRates| ==>
              CrackTimes(GuessRates, length, charset)[k].duration
                == Humanize(Pow(charset, length) / (2 * GuessRates[k].perSecond))
    ensures forall i, j :: 0 <= i < j < |GuessRates| ==>
              DurationSeconds(CrackTimes(GuessRates, length, charset)[j].duration)
                <= DurationSeconds(CrackTimes(GuessRates, length, charset)[i].duration)
  {
    GuessRatesIncreasing();
    forall i, j | 0 <= i < j < |GuessRates|
      ensures DurationSeconds(CrackTimes(GuessRates, length, charset)[j].duration)
                <= DurationSeconds(CrackTimes(GuessRates, length, charset)[i].duration)
    {
      CrackTimesOrdered(GuessRates, length, charset, i, j);
    }
  }
}
