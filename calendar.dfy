/** The calendar logic shared by the administrator's and the patient's
    dashboards: the `YYYY-MM-DD` key of a day cell, the day a meal belongs to,
    per-day meal lists and calorie totals, and month navigation. */
module Calendar {
  import opened Wrappers
  import opened Strings
  import opened Sorting
  import opened Types

  /** A month as `Date` holds it: a year and a 0-based month. */
  datatype Month = Month(year: int, month: int)

  predicate ValidMonth(m: Month) {
    0 <= m.month < 12
  }

  /** `new Date(year, month + delta, 1)` for years from 100 on: month overflow
      carries into the year. Years are unbounded here; `Date`'s reading of
      years 0 to 99 as 1900s years and its range limit are not modelled. */
  function ChangeMonth(m: Month, delta: int): (r: Month)
    ensures ValidMonth(r)
    ensures 12 * r.year + r.month == 12 * m.year + m.month + delta
  {
    var total := 12 * m.year + m.month + delta;
    Month(total / 12, total % 12)
  }

  /** A valid month is determined by its month count. */
  lemma MonthCountInjective(a: Month, b: Month)
    requires ValidMonth(a) && ValidMonth(b)
    requires 12 * a.year + a.month == 12 * b.year + b.month
    ensures a == b
  {
  }

  /** Moving by `a` then by `b` months is moving by `a + b`; moving by 0
      from a valid month stays put, so moving forward and back returns. */
  lemma ChangeMonthCompose(m: Month, a: int, b: int)
    ensures ChangeMonth(ChangeMonth(m, a), b) == ChangeMonth(m, a + b)
    ensures ValidMonth(m) ==> ChangeMonth(m, 0) == m
  {
    MonthCountInjective(ChangeMonth(ChangeMonth(m, a), b), ChangeMonth(m, a + b));
    if ValidMonth(m) {
      MonthCountInjective(ChangeMonth(m, 0), m);
    }
  }

  predicate IsLeapYear(y: int) {
    (y % 4 == 0 && y % 100 != 0) || y % 400 == 0
  }

  /** `new Date(year, month + 1, 0).getDate()`: the number of days of the month
      in the proleptic Gregorian calendar, for the year as given (`Date` would
      read years 0 to 99 as 1900s years). */
  function DaysInMonth(m: Month): (d: nat)
    requires ValidMonth(m)
    ensures 28 <= d <= 31
    ensures d == 29 <==> m.month == 1 && IsLeapYear(m.year)
    ensures d == 28 <==> m.month == 1 && !IsLeapYear(m.year)
    ensures m.month != 1 ==> (d == 30 <==> m.month in {3, 5, 8, 10})
    ensures d == 31 <==> m.month in {0, 2, 4, 6, 7, 9, 11}
  {
    if m.month == 1 then (if IsLeapYear(m.year) then 29 else 28)
    else if m.month in {3, 5, 8, 10} then 30
    else 31
  }

  /** `-MM-DD`: the 1-based month and the day, zero-padded to two digits. */
  function DaySuffix(m: Month, day: nat): string
    requires ValidMonth(m) && 1 <= day <= 31
  {
    "-" + PadStart(NatToString(m.month + 1), 2, '0') + "-" + PadStart(NatToString(day), 2, '0')
  }

  /** The cell key of `day` in month `m`: `${year}-${MM}-${DD}`. */
  function DateKey(m: Month, day: nat): string
    requires ValidMonth(m) && 1 <= day <= 31
  {
    IntToString(m.year) + DaySuffix(m, day)
  }

  lemma DaySuffixParts(m: Month, day: nat)
    requires ValidMonth(m) && 1 <= day <= 31
    ensures |DaySuffix(m, day)| == 6
    ensures ParseNat(DaySuffix(m, day)[1..3]) == Some(m.month + 1)
    ensures ParseNat(DaySuffix(m, day)[4..]) == Some(day)
    ensures forall i :: 0 <= i < 6 ==> DaySuffix(m, day)[i] == '-' || IsDigit(DaySuffix(m, day)[i])
  {
    var mm := PadStart(NatToString(m.month + 1), 2, '0');
    var dd := PadStart(NatToString(day), 2, '0');
    assert DaySuffix(m, day) == "-" + mm + "-" + dd;
    ParsePad2(m.month + 1);
    ParsePad2(day);
    SuffixShape(mm, dd);
  }

  lemma SuffixShape(mm: string, dd: string)
    requires |mm| == 2 && |dd| == 2
    requires IsDigit(mm[0]) && IsDigit(mm[1]) && IsDigit(dd[0]) && IsDigit(dd[1])
    ensures |"-" + mm + "-" + dd| == 6
    ensures ("-" + mm + "-" + dd)[1..3] == mm && ("-" + mm + "-" + dd)[4..] == dd
    ensures forall i :: 0 <= i < 6 ==> ("-" + mm + "-" + dd)[i] == '-' || IsDigit(("-" + mm + "-" + dd)[i])
  {
    var s := "-" + mm + "-" + dd;
    assert s == ['-', mm[0], mm[1], '-', dd[0], dd[1]];
  }

  lemma IntToStringChars(y: int)
    ensures forall i :: 0 <= i < |IntToString(y)| ==> IntToString(y)[i] == '-' || IsDigit(IntToString(y)[i])
  {
    if y < 0 {
      var n := NatToString(-y);
      assert forall i :: 1 <= i < |IntToString(y)| ==> IntToString(y)[i] == n[i - 1];
    }
  }

  /** A key names one day: different days of any months have different keys. */
  lemma DateKeyInjective(m1: Month, d1: nat, m2: Month, d2: nat)
    requires ValidMonth(m1) && 1 <= d1 <= 31 && ValidMonth(m2) && 1 <= d2 <= 31
    requires DateKey(m1, d1) == DateKey(m2, d2)
    ensures m1 == m2 && d1 == d2
  {
    var y1, y2 := IntToString(m1.year), IntToString(m2.year);
    var s1, s2 := DaySuffix(m1, d1), DaySuffix(m2, d2);
    DaySuffixParts(m1, d1);
    DaySuffixParts(m2, d2);
    var k := DateKey(m1, d1);
    assert |y1| == |y2| by {
      assert |k| == |y1| + 6 == |y2| + 6;
    }
    assert y1 == k[..|y1|] == y2;
    assert s1 == k[|y1|..] == s2;
    IntToStringInjective(m1.year, m2.year);
  }

  /** The day a stored date belongs to:
      `date.includes('T') ? date.split('T')[0] : date`. */
  function DayOf(date: string): string {
    if Includes(date, "T") then Split(date, "T")[0] else date
  }

  lemma OccursAtT(s: string, i: nat)
    ensures OccursAt(s, "T", i) <==> i < |s| && s[i] == 'T'
  {
    if i < |s| { assert s[i..i + 1] == [s[i]]; }
  }

  /** The day is the prefix before the first 'T', or all of the date when it
      has none; the `includes` test only spares the split. */
  lemma DayOfIsPrefixBeforeT(date: string)
    ensures DayOf(date) <= date
    ensures 'T' !in DayOf(date)
    ensures |DayOf(date)| < |date| ==> date[|DayOf(date)|] == 'T'
  {
    SplitHead(date, "T");
    match IndexOf(date, "T")
    case None =>
      forall i | 0 <= i < |date| ensures date[i] != 'T' { OccursAtT(date, i); }
    case Some(k) =>
      OccursAtT(date, k);
      forall i | 0 <= i < k ensures date[i] != 'T' { OccursAtT(date, i); }
  }

  /** A date already in key form is its own day; in particular a cell's key. */
  lemma DayOfKey(m: Month, day: nat)
    requires ValidMonth(m) && 1 <= day <= 31
    ensures DayOf(DateKey(m, day)) == DateKey(m, day)
  {
    var y, suffix := IntToString(m.year), DaySuffix(m, day);
    var k := DateKey(m, day);
    IntToStringChars(m.year);
    DaySuffixParts(m, day);
    assert forall i | 0 <= i < |k| :: k[i] != 'T' by {
      forall i | 0 <= i < |k| ensures k[i] != 'T' {
        if i < |y| { assert k[i] == y[i]; } else { assert k[i] == suffix[i - |y|]; }
      }
    }
    forall i: nat ensures !OccursAt(k, "T", i) { OccursAtT(k, i); }
  }

  predicate OnDay(key: string, meal: MealLog) {
    DayOf(meal.date) == key
  }

  /** The meals of the cell keyed `key`, in their stored order. */
  function MealsOn(logs: seq<MealLog>, key: string): seq<MealLog> {
    Filter(logs, (meal: MealLog) => OnDay(key, meal))
  }

  /** `logs.reduce((sum, log) => sum + log.calories, 0)`. */
  function TotalCalories(logs: seq<MealLog>): int {
    if logs == [] then 0 else logs[0].calories + TotalCalories(logs[1..])
  }

  /** Meals with no negative calorie count sum to a total that is not negative. */
  lemma {:induction false} TotalCaloriesNonNegative(logs: seq<MealLog>)
    requires forall i :: 0 <= i < |logs| ==> logs[i].calories >= 0
    ensures TotalCalories(logs) >= 0
  {
    if logs != [] {
      TotalCaloriesNonNegative(logs[1..]);
    }
  }

  function DailyTotal(logs: seq<MealLog>, key: string): int {
    TotalCalories(MealsOn(logs, key))
  }

  lemma {:induction false} TotalCaloriesAppend(a: seq<MealLog>, b: seq<MealLog>)
    ensures TotalCalories(a + b) == TotalCalories(a) + TotalCalories(b)
  {
    if a == [] {
      assert a + b == b;
    } else {
      assert (a + b)[1..] == a[1..] + b;
      TotalCaloriesAppend(a[1..], b);
    }
  }

  /** A cell lists exactly the meals whose day is its key. */
  lemma MealsOnMembers(logs: seq<MealLog>, key: string, meal: MealLog)
    ensures meal in MealsOn(logs, key) <==> meal in logs && DayOf(meal.date) == key
  {
    FilterMembers(logs, (m: MealLog) => OnDay(key, m), meal);
  }

  lemma MealsOnAll(logs: seq<MealLog>, key: string)
    ensures forall meal :: meal in MealsOn(logs, key) <==> meal in logs && DayOf(meal.date) == key
  {
    forall meal ensures meal in MealsOn(logs, key) <==> meal in logs && DayOf(meal.date) == key {
      MealsOnMembers(logs, key, meal);
    }
  }

  /** A meal is listed under one key at most. */
  lemma MealOnOneKey(logs: seq<MealLog>, k1: string, k2: string, meal: MealLog)
    requires meal in MealsOn(logs, k1) && meal in MealsOn(logs, k2)
    ensures k1 == k2
  {
    MealsOnMembers(logs, k1, meal);
    MealsOnMembers(logs, k2, meal);
  }

  /** A meal is listed under at most one day of a month: the day cells of
      the calendar never share a meal. */
  lemma MealOnOneDay(logs: seq<MealLog>, m: Month, d1: nat, d2: nat, meal: MealLog)
    requires ValidMonth(m) && 1 <= d1 <= 31 && 1 <= d2 <= 31
    requires meal in MealsOn(logs, DateKey(m, d1)) && meal in MealsOn(logs, DateKey(m, d2))
    ensures d1 == d2
  {
    var k1, k2 := DateKey(m, d1), DateKey(m, d2);
    MealOnOneKey(logs, k1, k2, meal);
    DateKeyInjective(m, d1, m, d2);
  }

  /** A meal added at the front shows up first in its own day's cell and
      adds its calories to that day only. */
  lemma MealsOnPrepend(meal: MealLog, logs: seq<MealLog>, key: string)
    ensures MealsOn([meal] + logs, key)
         == (if DayOf(meal.date) == key then [meal] else []) + MealsOn(logs, key)
    ensures DailyTotal([meal] + logs, key)
         == (if DayOf(meal.date) == key then meal.calories else 0) + DailyTotal(logs, key)
  {
    assert ([meal] + logs)[1..] == logs;
    var head := if DayOf(meal.date) == key then [meal] else [];
    TotalCaloriesAppend(head, MealsOn(logs, key));
  }

  /** Disjoint filters add up: the total of what `p` keeps plus the total of
      what `q` keeps is the total of what either keeps. */
  lemma {:induction false} TotalOfDisjointFilters(logs: seq<MealLog>, p: MealLog -> bool, q: MealLog -> bool)
    requires forall meal :: !(p(meal) && q(meal))
    ensures TotalCalories(Filter(logs, p)) + TotalCalories(Filter(logs, q))
         == TotalCalories(Filter(logs, (meal: MealLog) => p(meal) || q(meal)))
  {
    if logs != [] {
      var pq := (meal: MealLog) => p(meal) || q(meal);
      TotalOfDisjointFilters(logs[1..], p, q);
      var hp := if p(logs[0]) then [logs[0]] else [];
      var hq := if q(logs[0]) then [logs[0]] else [];
      var hpq := if pq(logs[0]) then [logs[0]] else [];
      TotalCaloriesAppend(hp, Filter(logs[1..], p));
      TotalCaloriesAppend(hq, Filter(logs[1..], q));
      TotalCaloriesAppend(hpq, Filter(logs[1..], pq));
    }
  }

  /** The keys of the day cells of month `m`, day 1 first. */
  function MonthKeys(m: Month): (keys: seq<string>)
    requires ValidMonth(m)
    ensures |keys| == DaysInMonth(m)
    ensures forall i :: 0 <= i < |keys| ==> keys[i] == DateKey(m, i + 1)
  {
    seq(DaysInMonth(m), i requires 0 <= i < DaysInMonth(m) => DateKey(m, i + 1))
  }

  /** The day cells of a month have pairwise different keys. */
  lemma MonthKeysDistinct(m: Month)
    requires ValidMonth(m)
    ensures forall i, j :: 0 <= i < j < |MonthKeys(m)| ==> MonthKeys(m)[i] != MonthKeys(m)[j]
  {
    var keys := MonthKeys(m);
    forall i, j | 0 <= i < j < |keys| ensures keys[i] != keys[j] {
      if keys[i] == keys[j] { DateKeyInjective(m, i + 1, m, j + 1); }
    }
  }

  function SumTotals(logs: seq<MealLog>, keys: seq<string>): int {
    if keys == [] then 0 else DailyTotal(logs, keys[0]) + SumTotals(logs, keys[1..])
  }

  /** Over cells with distinct keys, the per-day totals add up to the total of
      the meals that fall on any of those days: no meal is counted twice. */
  lemma {:induction false} SumOfDailyTotals(logs: seq<MealLog>, keys: seq<string>)
    requires forall i, j :: 0 <= i < j < |keys| ==> keys[i] != keys[j]
    ensures SumTotals(logs, keys)
         == TotalCalories(Filter(logs, (meal: MealLog) => DayOf(meal.date) in keys))
  {
    var inKeys := (meal: MealLog) => DayOf(meal.date) in keys;
    if keys == [] {
      FilterNone(logs, inKeys);
    } else {
      var rest := keys[1..];
      SumOfDailyTotals(logs, rest);
      var onFirst := (meal: MealLog) => OnDay(keys[0], meal);
      var inRest := (meal: MealLog) => DayOf(meal.date) in rest;
      assert keys[0] !in rest by {
        forall j | 0 <= j < |rest| ensures rest[j] != keys[0] { assert rest[j] == keys[j + 1]; }
      }
      TotalOfDisjointFilters(logs, onFirst, inRest);
      FilterSamePredicate(logs, (meal: MealLog) => onFirst(meal) || inRest(meal), inKeys);
    }
  }

  /** The calendar of a month shows, summed over its cells, exactly the
      calories of the meals dated in that month. */
  lemma MonthTotal(logs: seq<MealLog>, m: Month)
    requires ValidMonth(m)
    ensures SumTotals(logs, MonthKeys(m))
         == TotalCalories(Filter(logs, (meal: MealLog) => DayOf(meal.date) in MonthKeys(m)))
  {
    MonthKeysDistinct(m);
    SumOfDailyTotals(logs, MonthKeys(m));
  }
}
