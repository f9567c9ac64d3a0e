/** Humanisation of a crack time (`_humanize_seconds`): a greedy walk over a descending
    unit table that keeps at most two non-zero terms. Seconds are whole numbers: the Python code
    truncates its float argument with `int(...)` before decomposing, and its `< 1` guard
    holds exactly when that truncation is 0. */
module Humanizer {
  import opened Arith

  datatype TimeUnit = Year | Day | Hour | Minute | Second

  function UnitSeconds(u: TimeUnit): (n: nat)
    ensures n >= 1
  {
    match u
    case Year => 365 * 24 * 3600
    case Day => 24 * 3600
    case Hour => 3600
    case Minute => 60
    case Second => 1
  }

  /** The unit table, largest first. */
  const Units: seq<TimeUnit> := [Year, Day, Hour, Minute, Second]

  /** One term of a humanised duration: `qty` whole units. */
  datatype Part = Part(qty: nat, unit: TimeUnit)

  /** `UnderOneSecond` is the fixed "< 1 second" text; otherwise the collected terms. */
  datatype Duration = UnderOneSecond | Parts(parts: seq<Part>)

  /** The walk over `units` with `remaining` seconds left and `parts` collected so far:
      a unit that fits contributes a term and leaves the remainder; the walk stops as soon
      as two terms are collected. */
  function Decompose(remaining: nat, units: seq<TimeUnit>, parts: seq<Part>): (r: seq<Part>)
    requires |parts| < 2
    ensures |parts| <= |r| <= 2
    ensures r[..|parts|] == parts
    decreases |units|
  {
    if |units| == 0 then parts
    else
      var u := UnitSeconds(units[0]);
      var parts' := if remaining >= u then parts + [Part(remaining / u, units[0])] else parts;
      var remaining' := if remaining >= u then remaining % u else remaining;
      if |parts'| == 2 then parts' else Decompose(remaining', units[1..], parts')
  }

  function Humanize(seconds: nat): (d: Duration)
    ensures d.Parts? ==> 1 <= |d.parts| <= 2
  {
    if seconds < 1 then UnderOneSecond
    else
      var parts := Decompose(seconds, Units, []);
      if |parts| == 0 then UnderOneSecond else Parts(parts)
  }

  /** The seconds a duration stands for. */
  function DurationSeconds(d: Duration): nat {
    match d
    case UnderOneSecond => 0
    case Parts(ps) => PartsSeconds(ps)
  }

  function PartsSeconds(ps: seq<Part>): nat {
    if |ps| == 0 then 0 else PartsSeconds(ps[..|ps| - 1]) + ps[|ps| - 1].qty * UnitSeconds(ps[|ps| - 1].unit)
  }

  /** `u` is the largest unit that fits into `r` seconds. */
  ghost predicate IsLargestUnitAtMost(u: TimeUnit, r: nat) {
    UnitSeconds(u) <= r && forall v :: UnitSeconds(v) <= r ==> UnitSeconds(v) <= UnitSeconds(u)
  }

  /** The largest unit that fits into `r >= 1` seconds, read off the table directly. */
  function LargestUnitAtMost(r: nat): (u: TimeUnit)
    requires r >= 1
    ensures IsLargestUnitAtMost(u, r)
  {
    if r >= UnitSeconds(Year) then Year
    else if r >= UnitSeconds(Day) then Day
    else if r >= UnitSeconds(Hour) then Hour
    else if r >= UnitSeconds(Minute) then Minute
    else Second
  }

  lemma LargestUnitUnique(u: TimeUnit, v: TimeUnit, r: nat)
    requires IsLargestUnitAtMost(u, r) && IsLargestUnitAtMost(v, r)
    ensures u == v
  {
  }

  /** The table is strictly descending. */
  lemma UnitsDescending()
    ensures forall a, b :: 0 <= a < b < |Units| ==> UnitSeconds(Units[a]) > UnitSeconds(Units[b])
  {
  }

  /** Where a unit sits in the table: the table lists every unit. */
  function UnitIndex(u: TimeUnit): (k: nat)
    ensures k < |Units| && Units[k] == u
  {
    match u
    case Year => 0
    case Day => 1
    case Hour => 2
    case Minute => 3
    case Second => 4
  }

  /** Position of the first unit of the table, from position `i` on, that fits into `r`
      seconds; `|Units|` when none does. */
  function FirstFit(r: nat, i: nat): (j: nat)
    requires i <= |Units|
    ensures i <= j <= |Units|
    ensures j < |Units| ==> UnitSeconds(Units[j]) <= r
    ensures forall k :: i <= k < j ==> UnitSeconds(Units[k]) > r
    decreases |Units| - i
  {
    if i == |Units| then i
    else if UnitSeconds(Units[i]) <= r then i
    else FirstFit(r, i + 1)
  }

  /** One step of the walk over a non-empty unit list. */
  lemma DecomposeStep(r: nat, units: seq<TimeUnit>, parts: seq<Part>)
    requires |units| > 0 && |parts| < 2
    ensures var u := UnitSeconds(units[0]);
            Decompose(r, units, parts)
              == if r < u then Decompose(r, units[1..], parts)
                 else if |parts| == 1 then parts + [Part(r / u, units[0])]
                 else Decompose(r % u, units[1..], parts + [Part(r / u, units[0])])
  {
  }

  /** With one term collected, the walk adds the first fitting unit's term, if any. */
  lemma {:induction false} DecomposeSecond(r: nat, i: nat, parts: seq<Part>)
    requires i <= |Units| && |parts| == 1
    ensures var j := FirstFit(r, i);
            Decompose(r, Units[i..], parts)
              == if j == |Units| then parts else parts + [Part(r / UnitSeconds(Units[j]), Units[j])]
    decreases |Units| - i
  {
    if i < |Units| {
      DecomposeStep(r, Units[i..], parts);
      assert Units[i..][0] == Units[i];
      assert Units[i..][1..] == Units[i + 1..];
      if UnitSeconds(Units[i]) > r {
        DecomposeSecond(r, i + 1, parts);
      }
    }
  }

  /** With no term collected, the walk skips to the first fitting unit and continues from
      the next one with that unit's remainder. */
  lemma {:induction false} DecomposeFirst(r: nat, i: nat)
    requires i <= |Units|
    ensures var j := FirstFit(r, i);
            Decompose(r, Units[i..], [])
              == if j == |Units| then []
                 else Decompose(r % UnitSeconds(Units[j]), Units[j + 1..],
                                [Part(r / UnitSeconds(Units[j]), Units[j])])
    decreases |Units| - i
  {
    if i < |Units| {
      DecomposeStep(r, Units[i..], []);
      assert Units[i..][0] == Units[i];
      assert Units[i..][1..] == Units[i + 1..];
      if UnitSeconds(Units[i]) > r {
        DecomposeFirst(r, i + 1);
      } else {
        assert [] + [Part(r / UnitSeconds(Units[i]), Units[i])]
            == [Part(r / UnitSeconds(Units[i]), Units[i])];
      }
    }
  }

  /** The first fitting unit from `i` on is the largest unit that fits, when no earlier unit
      of the table fits. */
  lemma FirstFitIsLargest(r: nat, i: nat)
    requires r >= 1 && i <= |Units|
    requires forall k :: 0 <= k < i ==> UnitSeconds(Units[k]) > r
    ensures FirstFit(r, i) < |Units|
    ensures Units[FirstFit(r, i)] == LargestUnitAtMost(r)
  {
    var j := FirstFit(r, i);
    assert j < |Units| by {
      assert UnitSeconds(Units[|Units| - 1]) <= r;
    }
    UnitsDescending();
    forall v | UnitSeconds(v) <= r
      ensures UnitSeconds(v) <= UnitSeconds(Units[j])
    {
      var k := UnitIndex(v);
      assert k >= j;
    }
    LargestUnitUnique(Units[j], LargestUnitAtMost(r), r);
  }

  /** Reference definition of the greedy two-term decomposition: for `seconds >= 1` the
      first term is the whole number of the largest unit that fits, and a second term
      appears exactly when something is left over, being the whole number of the largest
      unit that fits into the remainder. */
  function GreedyTwoTerms(seconds: nat): Duration {
    if seconds == 0 then UnderOneSecond
    else
      var u1 := LargestUnitAtMost(seconds);
      var r1 := seconds % UnitSeconds(u1);
      var first := Part(seconds / UnitSeconds(u1), u1);
      if r1 == 0 then Parts([first])
      else
        var u2 := LargestUnitAtMost(r1);
        Parts([first, Part(r1 / UnitSeconds(u2), u2)])
  }

  /** The walk's first term is the whole number of the largest unit that fits. */
  lemma WalkFirstTerm(seconds: nat)
    requires seconds >= 1
    ensures var u1 := LargestUnitAtMost(seconds);
            Decompose(seconds, Units, [])
              == Decompose(seconds % UnitSeconds(u1), Units[UnitIndex(u1) + 1..],
                           [Part(seconds / UnitSeconds(u1), u1)])
  {
    FirstFitIsLargest(seconds, 0);
    assert Units[0..] == Units;
    DecomposeFirst(seconds, 0);
  }

  /** After the first term, the walk adds a term for the largest unit that fits into the
      remainder, when the remainder is not zero. */
  lemma WalkSecondTerm(r1: nat, u1: TimeUnit, first: Part)
    requires r1 < UnitSeconds(u1)
    ensures Decompose(r1, Units[UnitIndex(u1) + 1..], [first])
              == if r1 == 0 then [first]
                 else [first, Part(r1 / UnitSeconds(LargestUnitAtMost(r1)), LargestUnitAtMost(r1))]
  {
    if r1 == 0 {
      WalkSecondTermNone(u1, first);
    } else {
      WalkSecondTermSome(r1, u1, first);
    }
  }

  lemma WalkSecondTermNone(u1: TimeUnit, first: Part)
    ensures Decompose(0, Units[UnitIndex(u1) + 1..], [first]) == [first]
  {
    DecomposeSecond(0, UnitIndex(u1) + 1, [first]);
  }

  lemma WalkSecondTermSome(r1: nat, u1: TimeUnit, first: Part)
    requires 1 <= r1 < UnitSeconds(u1)
    ensures Decompose(r1, Units[UnitIndex(u1) + 1..], [first])
              == [first, Part(r1 / UnitSeconds(LargestUnitAtMost(r1)), LargestUnitAtMost(r1))]
  {
    SecondFitIsLargest(r1, u1);
    DecomposeSecondFits(r1, UnitIndex(u1) + 1, [first], LargestUnitAtMost(r1));
  }

  /** Below a unit's length, the first unit after it that fits is the largest that fits. */
  lemma SecondFitIsLargest(r1: nat, u1: TimeUnit)
    requires 1 <= r1 < UnitSeconds(u1)
    ensures FirstFit(r1, UnitIndex(u1) + 1) < |Units|
    ensures Units[FirstFit(r1, UnitIndex(u1) + 1)] == LargestUnitAtMost(r1)
  {
    var j := UnitIndex(u1);
    assert forall k :: 0 <= k < j + 1 ==> UnitSeconds(Units[k]) > r1 by {
      UnitsDescending();
    }
    FirstFitIsLargest(r1, j + 1);
  }

  /** The second term when some unit from `i` on fits: its whole count of the first such unit. */
  lemma DecomposeSecondFits(r: nat, i: nat, parts: seq<Part>, u: TimeUnit)
    requires i <= |Units| && |parts| == 1
    requires FirstFit(r, i) < |Units| && Units[FirstFit(r, i)] == u
    ensures Decompose(r, Units[i..], parts) == parts + [Part(r / UnitSeconds(u), u)]
  {
    DecomposeSecond(r, i, parts);
  }

  /** The walk of `_humanize_seconds` over the unit table computes the greedy two-term decomposition. */
  lemma HumanizeGreedy(seconds: nat)
    ensures Humanize(seconds) == GreedyTwoTerms(seconds)
  {
    if seconds >= 1 {
      var u1 := LargestUnitAtMost(seconds);
      WalkFirstTerm(seconds);
      WalkSecondTerm(seconds % UnitSeconds(u1), u1, Part(seconds / UnitSeconds(u1), u1));
    }
  }

  lemma PartsSecondsOfTwo(a: Part, b: Part)
    ensures PartsSeconds([a]) == a.qty * UnitSeconds(a.unit)
    ensures PartsSeconds([a, b]) == a.qty * UnitSeconds(a.unit) + b.qty * UnitSeconds(b.unit)
  {
    assert [a, b][..1] == [a];
    assert [a][..0] == [];
  }

  /** The greedy decomposition, one term: nothing is left over. */
  lemma GreedyOneTerm(seconds: nat)
    requires seconds >= 1
    requires seconds % UnitSeconds(LargestUnitAtMost(seconds)) == 0
    ensures var d := GreedyTwoTerms(seconds);
            && d.Parts? && |d.parts| == 1 && d.parts[0].qty >= 1
            && DurationSeconds(d) == seconds
  {
    var u1 := LargestUnitAtMost(seconds);
    var n1 := UnitSeconds(u1);
    var first := Part(seconds / n1, u1);
    PartsSecondsOfTwo(first, first);
    assert seconds == (seconds / n1) * n1;
  }

  /** The greedy decomposition, two terms: the second unit is smaller than the first and
      what is left over is smaller than the second unit. */
  lemma GreedyTwoTermsLeftover(seconds: nat)
    requires seconds >= 1
    requires seconds % UnitSeconds(LargestUnitAtMost(seconds)) != 0
    ensures var d := GreedyTwoTerms(seconds);
            && d.Parts? && |d.parts| == 2 && d.parts[0].qty >= 1 && d.parts[1].qty >= 1
            && UnitSeconds(d.parts[0].unit) > UnitSeconds(d.parts[1].unit)
            && DurationSeconds(d) <= seconds
            && seconds - DurationSeconds(d) < UnitSeconds(d.parts[1].unit)
  {
    var u1 := LargestUnitAtMost(seconds);
    var n1 := UnitSeconds(u1);
    var r1 := seconds % n1;
    var u2 := LargestUnitAtMost(r1);
    var n2 := UnitSeconds(u2);
    var first := Part(seconds / n1, u1);
    var second := Part(r1 / n2, u2);
    assert GreedyTwoTerms(seconds) == Parts([first, second]);
    PartsSecondsOfTwo(first, second);
    TwoTermArithmetic(seconds, n1, n2);
  }

  /** Whole `n1`s of `s`, then whole `n2`s of what remains: at least one of each, and less
      than one `n2` left over. */
  lemma TwoTermArithmetic(s: nat, n1: nat, n2: nat)
    requires 1 <= n1 <= s && 1 <= n2 <= s % n1
    ensures s / n1 >= 1 && (s % n1) / n2 >= 1
    ensures (s / n1) * n1 + ((s % n1) / n2) * n2 <= s
    ensures s - ((s / n1) * n1 + ((s % n1) / n2) * n2) < n2
  {
    var r1 := s % n1;
    assert s == (s / n1) * n1 + r1;
    assert r1 == (r1 / n2) * n2 + r1 % n2;
    FloorMultipleMonotone(n1, s, n1);
  }

  /** Shape of every humanised duration: at most two terms, each non-zero, in strictly
      descending unit order; a single term accounts for every second, and with two terms
      what is left over is smaller than the second unit. */
  lemma HumanizeShape(seconds: nat)
    ensures Humanize(seconds).UnderOneSecond? <==> seconds == 0
    ensures Humanize(seconds).Parts? ==>
      var ps := Humanize(seconds).parts;
      && 1 <= |ps| <= 2
      && (forall k :: 0 <= k < |ps| ==> ps[k].qty >= 1)
      && DurationSeconds(Humanize(seconds)) <= seconds
      && (|ps| == 1 ==> DurationSeconds(Humanize(seconds)) == seconds)
      && (|ps| == 2 ==> UnitSeconds(ps[0].unit) > UnitSeconds(ps[1].unit))
      && (|ps| == 2 ==> seconds - DurationSeconds(Humanize(seconds)) < UnitSeconds(ps[1].unit))
  {
    HumanizeGreedy(seconds);
    if seconds >= 1 {
      if seconds % UnitSeconds(LargestUnitAtMost(seconds)) == 0 {
        GreedyOneTerm(seconds);
      } else {
        GreedyTwoTermsLeftover(seconds);
      }
    }
  }

  /** `r` seconds rounded down to a whole number of the largest unit that fits. */
  function TruncateToLargestUnit(r: nat): (v: nat)
  {
    if r == 0 then 0 else (r / UnitSeconds(LargestUnitAtMost(r))) * UnitSeconds(LargestUnitAtMost(r))
  }

  lemma FloorMultipleMonotone(a: nat, b: nat, n: nat)
    requires a <= b && n >= 1
    ensures a / n <= b / n
    ensures (a / n) * n <= (b / n) * n
  {
    var qa, qb := a / n, b / n;
    assert a == qa * n + a % n && b == qb * n + b % n;
    if qa > qb {
      MultiplyBoth(qb + 1, qa, n, n);
      assert false;
    }
    MultiplyBoth(qa, qb, n, n);
  }

  /** Truncation never exceeds its argument, keeps at least one whole unit, and grows with
      its argument. */
  lemma TruncateMonotone(r: nat, r': nat)
    requires r <= r'
    ensures TruncateToLargestUnit(r) <= r
    ensures r >= 1 ==> TruncateToLargestUnit(r) >= UnitSeconds(LargestUnitAtMost(r))
    ensures TruncateToLargestUnit(r) <= TruncateToLargestUnit(r')
  {
    if r >= 1 {
      var m := UnitSeconds(LargestUnitAtMost(r));
      var m' := UnitSeconds(LargestUnitAtMost(r'));
      assert r == (r / m) * m + r % m;
      assert r' == (r' / m') * m' + r' % m';
      assert r' / m' >= 1;
      if LargestUnitAtMost(r) == LargestUnitAtMost(r') {
        FloorMultipleMonotone(r, r', m);
      } else {
        assert m' > r;
      }
    }
  }

  /** The seconds of a greedy decomposition: the first term's whole units plus the
      remainder truncated to its largest unit. */
  lemma GreedySeconds(seconds: nat)
    requires seconds >= 1
    ensures var n1 := UnitSeconds(LargestUnitAtMost(seconds));
            DurationSeconds(GreedyTwoTerms(seconds))
              == TruncateToLargestUnit(seconds) + TruncateToLargestUnit(seconds % n1)
  {
    var u1 := LargestUnitAtMost(seconds);
    var n1 := UnitSeconds(u1);
    var r1 := seconds % n1;
    var first := Part(seconds / n1, u1);
    if r1 == 0 {
      PartsSecondsOfTwo(first, first);
    } else {
      var u2 := LargestUnitAtMost(r1);
      PartsSecondsOfTwo(first, Part(r1 / UnitSeconds(u2), u2));
    }
  }

  /** The greedy seconds of `s`: its truncation plus the truncation of the remainder. */
  function GreedyValue(s: nat): nat
    requires s >= 1
  {
    TruncateToLargestUnit(s) + TruncateToLargestUnit(s % UnitSeconds(LargestUnitAtMost(s)))
  }

  lemma GreedyValueBounds(s: nat)
    requires s >= 1
    ensures TruncateToLargestUnit(s) <= GreedyValue(s) <= s
  {
    var n := UnitSeconds(LargestUnitAtMost(s));
    assert s == (s / n) * n + s % n;
    TruncateMonotone(s % n, s % n);
  }

  lemma GreedyValueMonotone(s: nat, s': nat)
    requires 1 <= s <= s'
    ensures GreedyValue(s) <= GreedyValue(s')
  {
    GreedyValueBounds(s);
    GreedyValueBounds(s');
    TruncateMonotone(s', s');
    var n := UnitSeconds(LargestUnitAtMost(s));
    var n' := UnitSeconds(LargestUnitAtMost(s'));
    if LargestUnitAtMost(s) == LargestUnitAtMost(s') {
      SameUnitMonotone(s, s', n);
    } else {
      TruncateMonotone(s, s');
      assert n' > s;
    }
  }

  lemma SameUnitMonotone(s: nat, s': nat, n: nat)
    requires 1 <= s <= s'
    requires LargestUnitAtMost(s) == LargestUnitAtMost(s') && n == UnitSeconds(LargestUnitAtMost(s))
    ensures GreedyValue(s) <= GreedyValue(s')
  {
    FloorMultipleMonotone(s, s', n);
    if s / n == s' / n {
      SameQuotientMonotone(s, s', n);
    } else {
      HigherQuotientMonotone(s, s', n);
    }
  }

  /** Same unit, same number of whole units: the remainders decide. */
  lemma SameQuotientMonotone(s: nat, s': nat, n: nat)
    requires 1 <= s <= s'
    requires LargestUnitAtMost(s) == LargestUnitAtMost(s') && n == UnitSeconds(LargestUnitAtMost(s))
    requires s / n == s' / n
    ensures GreedyValue(s) <= GreedyValue(s')
  {
    var q := s / n;
    assert s % n <= s' % n by {
      assert s == q * n + s % n;
      assert s' == q * n + s' % n;
    }
    TruncateMonotone(s % n, s' % n);
  }

  /** Same unit, more whole units: `s'` truncates to at least the next multiple above `s`. */
  lemma HigherQuotientMonotone(s: nat, s': nat, n: nat)
    requires 1 <= s <= s'
    requires LargestUnitAtMost(s) == LargestUnitAtMost(s') && n == UnitSeconds(LargestUnitAtMost(s))
    requires s / n < s' / n
    ensures GreedyValue(s) <= GreedyValue(s')
  {
    assert TruncateToLargestUnit(s') == (s' / n) * n;
    NextMultipleAbove(s, n);
    MultiplyBoth(s / n + 1, s' / n, n, n);
    GreedyValueBounds(s);
    GreedyValueBounds(s');
  }

  /** `s` lies below the next multiple of `n` after its own floor. */
  lemma NextMultipleAbove(s: nat, n: nat)
    requires n >= 1
    ensures s < (s / n + 1) * n
  {
    var q := s / n;
    assert s == q * n + s % n;
    assert (q + 1) * n == q * n + n;
  }

  /** A longer crack time never humanises to fewer seconds. */
  lemma HumanizeMonotone(s: nat, s': nat)
    requires s <= s'
    ensures DurationSeconds(Humanize(s)) <= DurationSeconds(Humanize(s'))
  {
    if s >= 1 {
      HumanizeGreedy(s);
      HumanizeGreedy(s');
      GreedySeconds(s);
      GreedySeconds(s');
      GreedyValueMonotone(s, s');
    }
  }

  lemma HumanizeNinety()
    ensures Humanize(90) == Parts([Part(1, Minute), Part(30, Second)])
  {
    HumanizeGreedy(90);
  }

  lemma HumanizeFortyFiveDays()
    ensures Humanize(3900000) == Parts([Part(45, Day), Part(3, Hour)])
  {
    assert LargestUnitAtMost(3900000) == Day;
    assert LargestUnitAtMost(12000) == Hour;
    assert 3900000 == 45 * 86400 + 12000;
    HumanizeGreedy(3900000);
  }

  /** Decimal digits of a natural number, most significant first, as `f"{qty}"` prints. */
  function Decimal(n: nat): (s: string)
    ensures |s| >= 1
    ensures forall i :: 0 <= i < |s| ==> '0' <= s[i] <= '9'
  {
    if n < 10 then [('0' as int + n) as char] else Decimal(n / 10) + [('0' as int + n % 10) as char]
  }

  /** The number a string of decimal digits denotes. */
  function DecimalValue(s: string): nat
    requires forall i :: 0 <= i < |s| ==> '0' <= s[i] <= '9'
  {
    if |s| == 0 then 0 else DecimalValue(s[..|s| - 1]) * 10 + (s[|s| - 1] as int - '0' as int)
  }

  /** Printing a quantity loses nothing: its digits read back as the same number. */
  lemma {:induction false} DecimalRoundTrip(n: nat)
    ensures DecimalValue(Decimal(n)) == n
  {
    if n >= 10 {
      DecimalRoundTrip(n / 10);
      var s := Decimal(n);
      assert s[..|s| - 1] == Decimal(n / 10);
    }
  }

  /** The Thai unit names of the table. */
  function UnitName(u: TimeUnit): (s: string)
    ensures |s| >= 1
  {
    match u
    case Year => "ปี"
    case Day => "วัน"
    case Hour => "ชั่วโมง"
    case Minute => "นาที"
    case Second => "วินาที"
  }

  const UnderOneSecondText: string := "< 1 วินาที"

  /** Different units have different names, so a rendered term names its unit unambiguously. */
  lemma UnitNamesDistinct(u: TimeUnit, v: TimeUnit)
    ensures UnitName(u) == UnitName(v) ==> u == v
  {
  }

  /** One term, `f"{qty} {name}"`: the quantity's digits, a space, the unit's name. */
  function RenderPart(p: Part): (s: string)
    ensures |s| >= 3
    ensures '0' <= s[0] <= '9'
  {
    Decimal(p.qty) + " " + UnitName(p.unit)
  }

  /** `", ".join(parts)`: empty exactly for no terms. */
  function JoinParts(ps: seq<Part>): (s: string)
    ensures s == [] <==> ps == []
  {
    if |ps| == 0 then ""
    else if |ps| == 1 then RenderPart(ps[0])
    else RenderPart(ps[0]) + ", " + JoinParts(ps[1..])
  }

  /** The text `_humanize_seconds` returns for a duration: the terms joined by ", ", or the
      fixed under-one-second text. That text is shown exactly when there is no term; the
      joined terms start with the digits of the first quantity instead. */
  function Render(d: Duration): (s: string)
    ensures |s| >= 1
    ensures s == UnderOneSecondText <==> d.UnderOneSecond? || d.parts == []
    ensures d.Parts? && d.parts != [] ==> '0' <= s[0] <= '9'
  {
    match d
    case UnderOneSecond => UnderOneSecondText
    case Parts(ps) =>
      if |ps| == 0 then UnderOneSecondText
      else
        JoinPartsStartsWithDigit(ps);
        assert UnderOneSecondText[0] == '<';
        JoinParts(ps)
  }

  /** Two terms render as the first, a comma and a space, and the second. */
  lemma RenderTwoParts(p: Part, q: Part)
    ensures Render(Parts([p, q])) == RenderPart(p) + ", " + RenderPart(q)
  {
    assert [p, q][1..] == [q];
    assert JoinParts([q]) == RenderPart(q);
    assert JoinParts([p, q]) == RenderPart(p) + ", " + JoinParts([q]);
  }

  /** The fixed under-one-second text is shown exactly for zero whole seconds: any other
      duration renders starting with a digit. */
  lemma RenderUnderOneSecond(seconds: nat)
    ensures Render(Humanize(seconds)) == UnderOneSecondText <==> seconds == 0
  {
    HumanizeShape(seconds);
  }

  /** Joined terms start with the first quantity's leading digit. */
  lemma JoinPartsStartsWithDigit(ps: seq<Part>)
    requires |ps| >= 1
    ensures |JoinParts(ps)| >= 1 && '0' <= JoinParts(ps)[0] <= '9'
  {
    var d := Decimal(ps[0].qty);
    assert RenderPart(ps[0])[0] == d[0];
    if |ps| > 1 {
      assert JoinParts(ps) == RenderPart(ps[0]) + (", " + JoinParts(ps[1..]));
    }
  }

  lemma RenderNinety()
    ensures Render(Humanize(90)) == "1 นาที, 30 วินาที"
  {
    HumanizeNinety();
    RenderMinuteAndHalf();
  }

  lemma RenderMinuteAndHalf()
    ensures Render(Parts([Part(1, Minute), Part(30, Second)])) == "1 นาที, 30 วินาที"
  {
    RenderTwoParts(Part(1, Minute), Part(30, Second));
    assert RenderPart(Part(1, Minute)) + ", " + RenderPart(Part(30, Second)) == "1 นาที, 30 วินาที" by {
      assert RenderPart(Part(1, Minute)) == "1 นาที" by { assert Decimal(1) == "1"; }
      assert RenderPart(Part(30, Second)) == "30 วินาที" by { assert Decimal(30) == "30"; }
    }
  }

  lemma RenderFortyFiveDays()
    ensures Render(Humanize(3900000)) == "45 วัน, 3 ชั่วโมง"
  {
    HumanizeFortyFiveDays();
    RenderDaysAndHours();
  }

  lemma RenderDaysAndHours()
    ensures Render(Parts([Part(45, Day), Part(3, Hour)])) == "45 วัน, 3 ชั่วโมง"
  {
    RenderTwoParts(Part(45, Day), Part(3, Hour));
    assert RenderPart(Part(45, Day)) + ", " + RenderPart(Part(3, Hour)) == "45 วัน, 3 ชั่วโมง" by {
      assert RenderPart(Part(45, Day)) == "45 วัน" by { assert Decimal(45) == "45"; }
      assert RenderPart(Part(3, Hour)) == "3 ชั่วโมง" by { assert Decimal(3) == "3"; }
    }
  }
}
