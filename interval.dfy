/** find_interval: the quarter mentions are merged into the caller's year -> months dictionary,
    and the earliest and latest (year, month) inside the two-sigma band of the years become the
    interval. Time stamps `year + month / 12` are kept exactly as integer months `12 * year + month`. */
module Interval {
  import opened Common

  /** One `{"location": ..., "quantity": ...}` record; the quantity is the index of the token. */
  datatype QuarterMention = QuarterMention(location: Option<string>, quantity: Option<nat>)

  /** The returned dictionary `{year_start, month_start, year_end, month_end}`. */
  datatype Interval = Interval(yearStart: int, monthStart: int, yearEnd: int, monthEnd: int)

  /** The caller's `months` dictionary, which find_interval extends in place. */
  class MonthsByYear {
    var entries: map<int, seq<int>>

    constructor (entries: map<int, seq<int>>)
      ensures this.entries == entries
    {
      this.entries := entries;
    }
  }

  /** `lower_in_range`'s initial 100000, in months. */
  const NoLow: int := 1200000
  /** `upper_in_range`'s initial 0. */
  const NoHigh: int := 0

  // ---------------------------------------------------------------- the two-sigma band

  function Sum(xs: seq<int>): int {
    if xs == [] then 0 else Sum(xs[..|xs| - 1]) + xs[|xs| - 1]
  }

  function SumSq(xs: seq<int>): int {
    if xs == [] then 0 else SumSq(xs[..|xs| - 1]) + xs[|xs| - 1] * xs[|xs| - 1]
  }

  /** `lower < year + month / 12 < upper` for the time stamp L = 12 * year + month: with more than
      one year the band is mean -+ 2 population standard deviations, squared out; otherwise (0, 100000). */
  predicate InBand(years: seq<int>, l: int) {
    if |years| > 1 then
      var n, s, q := |years|, Sum(years), SumSq(years);
      (n * l - 12 * s) * (n * l - 12 * s) < 576 * (n * q - s * s)
    else 0 < l < NoLow
  }

  /** The squared test is the two-sigma test on reals: for a standard deviation sd with
      sd * sd == q / n - (s / n)^2, `mean - 2 sd < l / 12 < mean + 2 sd` holds exactly when
      `(n l - 12 s)^2 < 576 (n q - s^2)`. */
  lemma TwoSigmaIsExact(n: int, s: int, q: int, l: int, sd: real)
    requires n > 1 && sd >= 0.0
    requires sd * sd == q as real / n as real - (s as real / n as real) * (s as real / n as real)
    ensures (s as real / n as real - 2.0 * sd < l as real / 12.0 < s as real / n as real + 2.0 * sd)
            <==> (n * l - 12 * s) * (n * l - 12 * s) < 576 * (n * q - s * s)
  {
    var nr := n as real;
    var x := l as real / 12.0 - s as real / nr;
    var d := (n * l - 12 * s) as real;
    assert d == 12.0 * nr * x;
    assert 576.0 * (n * q - s * s) as real == 144.0 * nr * nr * (4.0 * sd * sd);
    assert d * d == 144.0 * nr * nr * (x * x);
    BandIsSquare(x, sd);
    ScaleLess(x * x, 4.0 * sd * sd, 144.0 * nr * nr);
  }

  /** For sd >= 0, -2 sd < x < 2 sd exactly when x^2 < 4 sd^2. */
  lemma BandIsSquare(x: real, sd: real)
    requires sd >= 0.0
    ensures (-2.0 * sd < x < 2.0 * sd) <==> x * x < 4.0 * sd * sd
  {
    var t := 2.0 * sd;
    if -t < x < t {
      if x >= 0.0 {
        assert x * x <= x * t < t * t;
      } else {
        assert x * x == (-x) * (-x) <= (-x) * t < t * t;
      }
    }
    if x * x < t * t {
      if x >= t {
        assert x * x >= t * x >= t * t;
      }
      if x <= -t {
        assert x * x == (-x) * (-x) >= t * (-x) >= t * t;
      }
    }
  }

  /** Multiplying both sides by a positive factor keeps a strict comparison. */
  lemma ScaleLess(a: real, b: real, c: real)
    requires c > 0.0
    ensures a < b <==> c * a < c * b
  {
  }

  // ---------------------------------------------------------------- the running min / max

  /** The (year, month) pair at position i of year y's list is accepted, as time stamp l. */
  ghost predicate Accepted(years: seq<int>, entries: map<int, seq<int>>, l: int) {
    exists y, i :: y in entries && 0 <= i < |entries[y]| && l == 12 * y + entries[y][i] && InBand(years, l)
  }

  /** lo is `lower_in_range` after the loop: the least accepted stamp below 100000 years, else 100000 years. */
  ghost predicate IsLowest(years: seq<int>, entries: map<int, seq<int>>, lo: int) {
    && lo <= NoLow
    && (forall y, i :: y in entries && 0 <= i < |entries[y]| && InBand(years, 12 * y + entries[y][i])
          ==> lo <= 12 * y + entries[y][i])
    && (lo == NoLow || Accepted(years, entries, lo))
  }

  /** hi is `upper_in_range` after the loop: the greatest accepted stamp above 0, else 0. */
  ghost predicate IsHighest(years: seq<int>, entries: map<int, seq<int>>, hi: int) {
    && hi >= NoHigh
    && (forall y, i :: y in entries && 0 <= i < |entries[y]| && InBand(years, 12 * y + entries[y][i])
          ==> 12 * y + entries[y][i] <= hi)
    && (hi == NoHigh || Accepted(years, entries, hi))
  }

  /** `int(x // 1)` and `round((x - x // 1) * 12)` of the time stamp l / 12. */
  function YearOf(l: int): int { l / 12 }
  function MonthOf(l: int): int { l % 12 }

  /** r is the dictionary find_interval returns for these years and months. */
  ghost predicate IsIntervalOf(years: seq<int>, entries: map<int, seq<int>>, r: Interval) {
    && 0 <= r.monthStart < 12 && 0 <= r.monthEnd < 12
    && IsLowest(years, entries, 12 * r.yearStart + r.monthStart)
    && IsHighest(years, entries, 12 * r.yearEnd + r.monthEnd)
  }

  /** The second half of find_interval: the band from the years, then the running minimum and
      maximum over every (year, month) pair, in whatever order the dictionary yields them. */
  method IntervalOf(years: seq<int>, entries: map<int, seq<int>>) returns (r: Interval)
    ensures IsIntervalOf(years, entries, r)
  {
    var lo, hi := NoLow, NoHigh;
    var todo := entries.Keys;
    while todo != {}
      invariant todo <= entries.Keys
      invariant lo <= NoLow && hi >= NoHigh
      invariant forall y, i :: y in entries && y !in todo && 0 <= i < |entries[y]| && InBand(years, 12 * y + entries[y][i])
                  ==> lo <= 12 * y + entries[y][i] <= hi
      invariant lo == NoLow || Accepted(years, entries, lo)
      invariant hi == NoHigh || Accepted(years, entries, hi)
      decreases todo
    {
      PickFrom(todo);
      var year :| year in todo;
      var ms := entries[year];
      var k := 0;
      while k < |ms|
        invariant 0 <= k <= |ms|
        invariant lo <= NoLow && hi >= NoHigh
        invariant forall y, i :: y in entries && y !in todo && 0 <= i < |entries[y]| && InBand(years, 12 * y + entries[y][i])
                    ==> lo <= 12 * y + entries[y][i] <= hi
        invariant forall i :: 0 <= i < k && InBand(years, 12 * year + ms[i]) ==> lo <= 12 * year + ms[i] <= hi
        invariant lo == NoLow || Accepted(years, entries, lo)
        invariant hi == NoHigh || Accepted(years, entries, hi)
      {
        var stamp := 12 * year + ms[k];
        if InBand(years, stamp) {
          if stamp < lo {
            lo := stamp;
          }
          if stamp > hi {
            hi := stamp;
          }
        }
        k := k + 1;
      }
      todo := todo - {year};
    }
    r := Interval(YearOf(lo), MonthOf(lo), YearOf(hi), MonthOf(hi));
  }

  /** A non-empty set has an element. */
  lemma PickFrom(s: set<int>)
    requires s != {}
    ensures exists x :: x in s
  {
    if forall x :: x !in s {
      assert false;
    }
  }

  // ---------------------------------------------------------------- properties of the interval

  /** The interval does not depend on the order the dictionary is visited in. */
  lemma IntervalIsUnique(years: seq<int>, entries: map<int, seq<int>>, r1: Interval, r2: Interval)
    requires IsIntervalOf(years, entries, r1) && IsIntervalOf(years, entries, r2)
    ensures r1 == r2
  {
    LowestIsUnique(years, entries, 12 * r1.yearStart + r1.monthStart, 12 * r2.yearStart + r2.monthStart);
    HighestIsUnique(years, entries, 12 * r1.yearEnd + r1.monthEnd, 12 * r2.yearEnd + r2.monthEnd);
    MonthsDetermine(r1.yearStart, r1.monthStart, r2.yearStart, r2.monthStart);
    MonthsDetermine(r1.yearEnd, r1.monthEnd, r2.yearEnd, r2.monthEnd);
  }

  /** A stamp determines its year and month. */
  lemma MonthsDetermine(a: int, b: int, c: int, d: int)
    requires 0 <= b < 12 && 0 <= d < 12 && 12 * a + b == 12 * c + d
    ensures a == c && b == d
  {
  }

  lemma LowestIsUnique(years: seq<int>, entries: map<int, seq<int>>, a: int, b: int)
    requires IsLowest(years, entries, a) && IsLowest(years, entries, b)
    ensures a == b
  {
    if a != NoLow {
      var y, i :| y in entries && 0 <= i < |entries[y]| && a == 12 * y + entries[y][i] && InBand(years, a);
      assert b <= a;
    }
    if b != NoLow {
      var y, i :| y in entries && 0 <= i < |entries[y]| && b == 12 * y + entries[y][i] && InBand(years, b);
      assert a <= b;
    }
  }

  lemma HighestIsUnique(years: seq<int>, entries: map<int, seq<int>>, a: int, b: int)
    requires IsHighest(years, entries, a) && IsHighest(years, entries, b)
    ensures a == b
  {
    if a != NoHigh {
      var y, i :| y in entries && 0 <= i < |entries[y]| && a == 12 * y + entries[y][i] && InBand(years, a);
      assert a <= b;
    }
    if b != NoHigh {
      var y, i :| y in entries && 0 <= i < |entries[y]| && b == 12 * y + entries[y][i] && InBand(years, b);
      assert b <= a;
    }
  }

  /** Once some pair is accepted the start is not after the end; with none accepted the result is
      exactly {100000, 0, 0, 0}, and that result means none was accepted. */
  lemma IntervalShape(years: seq<int>, entries: map<int, seq<int>>, r: Interval)
    requires IsIntervalOf(years, entries, r)
    ensures (exists l :: Accepted(years, entries, l)) ==>
      12 * r.yearStart + r.monthStart <= 12 * r.yearEnd + r.monthEnd
    ensures r == Interval(100000, 0, 0, 0) <==> forall l :: !Accepted(years, entries, l)
  {
    var lo, hi := 12 * r.yearStart + r.monthStart, 12 * r.yearEnd + r.monthEnd;
    if l :| Accepted(years, entries, l) {
      var y, i :| y in entries && 0 <= i < |entries[y]| && l == 12 * y + entries[y][i] && InBand(years, l);
      assert lo <= l <= hi;
    } else {
      assert lo == NoLow && hi == NoHigh;
    }
  }

  /** December of year y is reported as month 0 of year y + 1. */
  method DecemberRollsOver(y: int) returns (r: Interval)
    requires 0 <= y < 99999
    ensures r == Interval(y + 1, 0, y + 1, 0)
  {
    var entries := map[y := [12]];
    assert InBand([], 12 * y + 12);
    r := IntervalOf([], entries);
    var lo, hi := 12 * r.yearStart + r.monthStart, 12 * r.yearEnd + r.monthEnd;
    assert entries[y][0] == 12;
    assert lo <= 12 * y + 12 <= hi;
    assert lo == 12 * y + 12 && hi == 12 * y + 12;
  }

  /** A single year with no months gives the sentinel interval: the years only shape the band. */
  method LoneYearGivesSentinel() returns (r: Interval)
    ensures r == Interval(100000, 0, 0, 0)
  {
    r := IntervalOf([2016], map[]);
    IntervalShape([2016], map[], r);
  }

  /** With years 2015, 2016, 2017 and 2099 the band (population deviation) still contains
      January 2099. The general reason, that four values never lie more than sqrt(3) deviations
      from their mean, is not proved here; only this instance is. */
  lemma OutlierStaysInBand()
    ensures InBand([2015, 2016, 2017, 2099], 12 * 2099 + 1)
  {
    var ys := [2015, 2016, 2017, 2099];
    assert ys[..3] == [2015, 2016, 2017];
    assert ys[..3][..2] == [2015, 2016];
    assert ys[..3][..2][..1] == [2015];
    assert [2015][..0] == [];
    assert Sum([2015]) == 2015 && SumSq([2015]) == 2015 * 2015;
    assert Sum([2015, 2016]) == 4031 && SumSq([2015, 2016]) == 2015 * 2015 + 2016 * 2016;
    assert Sum([2015, 2016, 2017]) == 6048;
    assert SumSq([2015, 2016, 2017]) == 2015 * 2015 + 2016 * 2016 + 2017 * 2017;
    assert Sum(ys) == 8147;
    assert SumSq(ys) == 2015 * 2015 + 2016 * 2016 + 2017 * 2017 + 2099 * 2099;
  }

  // ---------------------------------------------------------------- merging the quarters

  /** The table lookup `quarter_to_month[quarter["location"]]` succeeds for q. */
  predicate KnownLocation(q: QuarterMention, table: map<string, int>) {
    q.location.Some? && q.location.value in table
  }

  /** Every mention of the given years has a known location. */
  predicate AllKnown(quarters: map<int, seq<QuarterMention>>, table: map<string, int>) {
    forall y, k :: y in quarters && 0 <= k < |quarters[y]| ==> KnownLocation(quarters[y][k], table)
  }

  /** The months appended for a list of mentions, in order. */
  function QuarterMonths(qs: seq<QuarterMention>, table: map<string, int>): (ms: seq<int>)
    requires forall k :: 0 <= k < |qs| ==> KnownLocation(qs[k], table)
    ensures |ms| == |qs|
    ensures forall k :: 0 <= k < |qs| ==> KnownLocation(qs[k], table) && ms[k] == table[qs[k].location.value]
  {
    if qs == [] then []
    else
      assert KnownLocation(qs[|qs| - 1], table);
      QuarterMonths(qs[..|qs| - 1], table) + [table[qs[|qs| - 1].location.value]]
  }

  /** Year y's list once the mentions qs are appended to it (to an empty list when y is absent). */
  function Appended(entries: map<int, seq<int>>, y: int, qs: seq<QuarterMention>, table: map<string, int>): seq<int>
    requires forall k :: 0 <= k < |qs| ==> KnownLocation(qs[k], table)
  {
    (if y in entries then entries[y] else []) + QuarterMonths(qs, table)
  }

  /** The dictionary after the years ys of quarters are merged: each gets its months appended to
      its old list (an empty one when absent); every other entry is as it was. */
  function MergeYears(entries: map<int, seq<int>>, quarters: map<int, seq<QuarterMention>>, ys: set<int>,
                      table: map<string, int>): (m: map<int, seq<int>>)
    requires ys <= quarters.Keys
    requires forall y, k :: y in ys && 0 <= k < |quarters[y]| ==> KnownLocation(quarters[y][k], table)
    ensures m.Keys == entries.Keys + ys
    ensures forall y :: y in entries && y !in ys ==> m[y] == entries[y]
    ensures forall y :: y in ys ==> m[y] == Appended(entries, y, quarters[y], table)
  {
    map y | y in entries.Keys + ys ::
      if y in ys then Appended(entries, y, quarters[y], table) else entries[y]
  }

  /** Merging one more year updates that year's entry only. */
  lemma MergeOneMore(entries: map<int, seq<int>>, quarters: map<int, seq<QuarterMention>>, ys: set<int>,
                     y: int, table: map<string, int>)
    requires ys <= quarters.Keys && y in quarters && y !in ys
    requires forall x, k :: x in ys + {y} && 0 <= k < |quarters[x]| ==> KnownLocation(quarters[x][k], table)
    ensures MergeYears(entries, quarters, ys + {y}, table)
      == MergeYears(entries, quarters, ys, table)[y := Appended(entries, y, quarters[y], table)]
  {
  }

  /** A year not merged yet still has its original list in the partly merged dictionary. */
  lemma AppendedUnmerged(entries: map<int, seq<int>>, quarters: map<int, seq<QuarterMention>>, ys: set<int>,
                         y: int, table: map<string, int>)
    requires ys <= quarters.Keys && y in quarters && y !in ys
    requires forall x, k :: x in ys && 0 <= k < |quarters[x]| ==> KnownLocation(quarters[x][k], table)
    requires forall k :: 0 <= k < |quarters[y]| ==> KnownLocation(quarters[y][k], table)
    ensures Appended(MergeYears(entries, quarters, ys, table), y, quarters[y], table)
      == Appended(entries, y, quarters[y], table)
  {
    var m := MergeYears(entries, quarters, ys, table);
    assert (y in m) == (y in entries);
    if y in entries {
      assert m[y] == entries[y];
    }
  }

  /** After the merge, year y's list starts with its old list and continues with the month of
      each of its mentions, in order. */
  lemma MergePlacesMentions(entries: map<int, seq<int>>, quarters: map<int, seq<QuarterMention>>,
                            table: map<string, int>, y: int, k: int)
    requires AllKnown(quarters, table) && y in quarters && 0 <= k < |quarters[y]|
    ensures var merged := MergeYears(entries, quarters, quarters.Keys, table)[y];
      var prior := if y in entries then entries[y] else [];
      && |merged| == |prior| + |quarters[y]|
      && merged[..|prior|] == prior
      && merged[|prior| + k] == table[quarters[y][k].location.value]
  {
    var prior := if y in entries then entries[y] else [];
    var merged := MergeYears(entries, quarters, quarters.Keys, table)[y];
    assert merged == prior + QuarterMonths(quarters[y], table);
    assert merged[..|prior|] == prior;
  }

  /** The inner loop of the merge: append the month of each mention of one year, in order;
      stop with KeyError at the first unknown location. */
  method AppendQuarters(months: MonthsByYear, year: int, qs: seq<QuarterMention>, table: map<string, int>)
    returns (err: Option<Error>)
    modifies months
    ensures err.None? <==> forall k :: 0 <= k < |qs| ==> KnownLocation(qs[k], table)
    ensures err.None? ==> months.entries == old(months.entries)[year := Appended(old(months.entries), year, qs, table)]
    ensures err.Some? ==>
      exists k :: 0 <= k < |qs| && !KnownLocation(qs[k], table) && err.value == KeyError(qs[k].location)
        && (forall i :: 0 <= i < k ==> KnownLocation(qs[i], table))
        && months.entries == old(months.entries)[year := Appended(old(months.entries), year, qs[..k], table)]
  {
    ghost var e0 := months.entries;
    if year !in months.entries {
      months.entries := months.entries[year := []];
    }
    var k := 0;
    assert qs[..0] == [] && QuarterMonths([], table) == [];
    assert Appended(e0, year, qs[..0], table) == if year in e0 then e0[year] else [];
    if year in e0 {
      assert e0[year := e0[year]] == e0;
    }
    assert months.entries == e0[year := Appended(e0, year, qs[..0], table)];
    while k < |qs|
      invariant 0 <= k <= |qs|
      invariant forall i :: 0 <= i < k ==> KnownLocation(qs[i], table)
      invariant months.entries == e0[year := Appended(e0, year, qs[..k], table)]
    {
      if !KnownLocation(qs[k], table) {
        return Some(KeyError(qs[k].location));
      }
      assert qs[..k + 1][..k] == qs[..k];
      assert Appended(e0, year, qs[..k + 1], table) == Appended(e0, year, qs[..k], table) + [table[qs[k].location.value]];
      months.entries := months.entries[year := months.entries[year] + [table[qs[k].location.value]]];
      k := k + 1;
    }
    assert qs[..k] == qs;
    return None;
  }

  /** The first loop of find_interval: `months[year].append(quarter_to_month[...])` for every
      mention, year by year in dictionary order; a location that is None or not in the table
      raises KeyError. */
  method MergeQuarters(months: MonthsByYear, quarters: map<int, seq<QuarterMention>>, table: map<string, int>)
    returns (err: Option<Error>)
    modifies months
    ensures err.None? <==> AllKnown(quarters, table)
    ensures err.None? ==> months.entries == MergeYears(old(months.entries), quarters, quarters.Keys, table)
    ensures err.Some? ==>
      exists y, k :: y in quarters && 0 <= k < |quarters[y]|
        && !KnownLocation(quarters[y][k], table) && err.value == KeyError(quarters[y][k].location)
  {
    ghost var e0 := months.entries;
    var todo := quarters.Keys;
    ghost var done: set<int> := {};
    while todo != {}
      invariant todo <= quarters.Keys && done == quarters.Keys - todo
      invariant forall y, k :: y in done && 0 <= k < |quarters[y]| ==> KnownLocation(quarters[y][k], table)
      invariant months.entries == MergeYears(e0, quarters, done, table)
      decreases todo
    {
      PickFrom(todo);
      var year :| year in todo;
      err := AppendQuarters(months, year, quarters[year], table);
      if err.Some? {
        ghost var k :| 0 <= k < |quarters[year]| && !KnownLocation(quarters[year][k], table)
          && err.value == KeyError(quarters[year][k].location);
        assert !AllKnown(quarters, table);
        return err;
      }
      AppendedUnmerged(e0, quarters, done, year, table);
      MergeOneMore(e0, quarters, done, year, table);
      done := done + {year};
      todo := todo - {year};
    }
    assert done == quarters.Keys;
    return None;
  }

  /** find_interval: merge the quarter months into the caller's dictionary, then take the interval
      of the merged dictionary. */
  method FindInterval(years: seq<int>, quarters: map<int, seq<QuarterMention>>, months: MonthsByYear,
                      table: map<string, int>) returns (r: Result<Interval>)
    modifies months
    ensures r.Success? <==> AllKnown(quarters, table)
    ensures r.Success? ==> months.entries == MergeYears(old(months.entries), quarters, quarters.Keys, table)
    ensures r.Success? ==> IsIntervalOf(years, months.entries, r.value)
    ensures r.Failure? ==>
      exists y, k :: y in quarters && 0 <= k < |quarters[y]|
        && !KnownLocation(quarters[y][k], table) && r.error == KeyError(quarters[y][k].location)
  {
    var err := MergeQuarters(months, quarters, table);
    if err.Some? {
      return Failure(err.value);
    }
    var interval := IntervalOf(years, months.entries);
    return Success(interval);
  }
}
