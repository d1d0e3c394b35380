/** The date helpers of the proposal generator: the inclusive month count
    of a contract, the installment schedule, and the long-form Portuguese
    date. Calendar dates arrive already broken into the fields the
    JavaScript `Date` getters return; parsing and the clock stay outside. */
module Dates {
  import opened Text
  import opened Wrappers
  import opened Sequences

  /** A date as `getFullYear`, `getMonth` (0 = January) and `getDate`
      report it. */
  datatype CalendarDate = CalendarDate(year: int, month0: int, day: int)

  /** The month getter only ever yields 0..11. */
  predicate ValidMonth(d: CalendarDate) {
    0 <= d.month0 < 12
  }

  // ---- Contract length in months --------------------------------------------

  /** `getMonthsDiff`: the raw month distance (days ignored), plus one to
      count both end months, except that a distance of zero or less gives
      0 -- so an end in the start's own month counts as 0, not 1, and the
      result is never 1. */
  function MonthsDiff(start: CalendarDate, end: CalendarDate): (m: int)
    ensures m >= 0 && m != 1
    ensures m == 0 <==> end.year * 12 + end.month0 <= start.year * 12 + start.month0
  {
    var months := (end.year - start.year) * 12 - start.month0 + end.month0;
    if months <= 0 then 0 else months + 1
  }

  /** The month following (year, month0). */
  function NextMonth(year: int, month0: int): (r: (int, int))
    requires 0 <= month0 < 12
    ensures 0 <= r.1 < 12
    ensures r.0 * 12 + r.1 == year * 12 + month0 + 1
  {
    if month0 == 11 then (year + 1, 0) else (year, month0 + 1)
  }

  /** Reference count: the calendar months met when stepping one month at
      a time from (year, month0) up to and including (endYear, endMonth0). */
  function MonthsVisited(year: int, month0: int, endYear: int, endMonth0: int): nat
    requires 0 <= month0 < 12 && 0 <= endMonth0 < 12
    requires year * 12 + month0 <= endYear * 12 + endMonth0
    decreases endYear * 12 + endMonth0 - (year * 12 + month0)
  {
    if year * 12 + month0 == endYear * 12 + endMonth0 then 1
    else
      var (y, m) := NextMonth(year, month0);
      1 + MonthsVisited(y, m, endYear, endMonth0)
  }

  lemma {:induction false} MonthsVisitedIsDistance(year: int, month0: int, endYear: int, endMonth0: int)
    requires 0 <= month0 < 12 && 0 <= endMonth0 < 12
    requires year * 12 + month0 <= endYear * 12 + endMonth0
    ensures MonthsVisited(year, month0, endYear, endMonth0) == endYear * 12 + endMonth0 - (year * 12 + month0) + 1
    decreases endYear * 12 + endMonth0 - (year * 12 + month0)
  {
    if year * 12 + month0 != endYear * 12 + endMonth0 {
      var (y, m) := NextMonth(year, month0);
      MonthsVisitedIsDistance(y, m, endYear, endMonth0);
    }
  }

  /** When the end lies in a later month, the result is the number of
      calendar months from the start month through the end month, both
      included; when it lies in the same or an earlier month, the result
      is 0 (so the same month does not count as one). */
  lemma MonthsDiffCountsCalendarMonths(start: CalendarDate, end: CalendarDate)
    requires ValidMonth(start) && ValidMonth(end)
    ensures start.year * 12 + start.month0 < end.year * 12 + end.month0 ==>
      MonthsDiff(start, end) == MonthsVisited(start.year, start.month0, end.year, end.month0)
    ensures start.year * 12 + start.month0 >= end.year * 12 + end.month0 ==> MonthsDiff(start, end) == 0
  {
    if start.year * 12 + start.month0 < end.year * 12 + end.month0 {
      MonthsVisitedIsDistance(start.year, start.month0, end.year, end.month0);
    }
  }

  /** The day of the month plays no part. */
  lemma MonthsDiffIgnoresDay(start: CalendarDate, end: CalendarDate, d1: int, d2: int)
    ensures MonthsDiff(start, end) == MonthsDiff(start.(day := d1), end.(day := d2))
  {
  }

  /** Moving the end one month later never shortens the count. */
  lemma MonthsDiffMonotone(start: CalendarDate, end: CalendarDate)
    requires ValidMonth(end)
    ensures var (y, m) := NextMonth(end.year, end.month0);
      MonthsDiff(start, end) <= MonthsDiff(start, CalendarDate(y, m, end.day))
  {
  }

  // ---- Installment schedule -------------------------------------------------

  datatype InstallmentRow = InstallmentRow(index: string, description: string, value: real, valuePix: real)

  const FirstInstallmentText: string := "No início dos trabalhos"

  /** The "NN/count" label of installment `i`. */
  function InstallmentIndex(i: nat, count: int): string {
    PadStart(NatToString(i), 2, '0') + "/" + IntToString(count)
  }

  /** When installment `i` falls due: the first at the start of work, the
      others every 30 days after it. */
  function InstallmentDescription(i: int): string {
    if i == 1 then FirstInstallmentText else IntToString((i - 1) * 30) + " dias após início"
  }

  /** One installment's share of the total. */
  function Share(total: real, count: int): real
    requires count > 0
  {
    total / (count as real)
  }

  /** Row `i` (1-based) of a schedule of `count` installments; paying by
      Pix takes 10% off the installment. */
  function Row(total: real, count: int, i: nat): InstallmentRow
    requires count > 0
  {
    var value := Share(total, count);
    InstallmentRow(InstallmentIndex(i, count), InstallmentDescription(i), value, value * 0.90)
  }

  /** `generateInstallmentRows`: `count` equal installments of the total,
      each with its Pix price; a count of zero or less yields no rows. */
  function InstallmentRows(total: real, count: int): (rows: seq<InstallmentRow>)
    ensures |rows| == if count <= 0 then 0 else count
    ensures forall k :: 0 <= k < |rows| ==>
      && rows[k].index == InstallmentIndex(k + 1, count)
      && rows[k].description == InstallmentDescription(k + 1)
  {
    if count <= 0 then [] else Tabulate(i => Row(total, count, i), 1, count)
  }

  /** Every installment is the same share of the total -- `count` of them
      make it up -- and its Pix price is 90% of it. */
  lemma InstallmentValues(total: real, count: int, k: int)
    requires 0 <= k < count
    ensures var row := InstallmentRows(total, count)[k];
      && row.value == Share(total, count)
      && row.value * (count as real) == total
      && row.valuePix == row.value * 0.90
  {
    var row := InstallmentRows(total, count)[k];
    assert row == Row(total, count, k + 1);
    SharesMakeTotal(total, count);
  }

  /** `count` shares make up the total. */
  lemma SharesMakeTotal(total: real, count: int)
    requires count > 0
    ensures Share(total, count) * (count as real) == total
  {
  }

  function Sum(xs: seq<real>): real
    decreases |xs|
  {
    if |xs| == 0 then 0.0 else xs[0] + Sum(xs[1..])
  }

  function Values(rows: seq<InstallmentRow>): (xs: seq<real>)
    ensures |xs| == |rows|
    ensures forall k :: 0 <= k < |rows| ==> xs[k] == rows[k].value
  {
    seq(|rows|, k requires 0 <= k < |rows| => rows[k].value)
  }

  function PixValues(rows: seq<InstallmentRow>): (xs: seq<real>)
    ensures |xs| == |rows|
    ensures forall k :: 0 <= k < |rows| ==> xs[k] == rows[k].valuePix
  {
    seq(|rows|, k requires 0 <= k < |rows| => rows[k].valuePix)
  }

  lemma {:induction false} SumOfConstant(xs: seq<real>, v: real)
    requires forall k :: 0 <= k < |xs| ==> xs[k] == v
    ensures Sum(xs) == (|xs| as real) * v
    decreases |xs|
  {
    if |xs| > 0 {
      SumOfConstant(xs[1..], v);
    }
  }

  /** The installments add up to the total, and their Pix prices to 90% of
      it. */
  lemma InstallmentsSumToTotal(total: real, count: int)
    requires count > 0
    ensures Sum(Values(InstallmentRows(total, count))) == total
    ensures Sum(PixValues(InstallmentRows(total, count))) == total * 0.90
  {
    var rows := InstallmentRows(total, count);
    var v := Share(total, count);
    var xs := Values(rows);
    var ps := PixValues(rows);
    forall k | 0 <= k < count
      ensures xs[k] == v && ps[k] == v * 0.90
    {
      InstallmentValues(total, count, k);
    }
    SharesMakeTotal(total, count);
    SumOfShares(xs, v, total);
    SumOfPixShares(ps, v, total);
  }

  lemma SumOfShares(xs: seq<real>, v: real, total: real)
    requires forall k :: 0 <= k < |xs| ==> xs[k] == v
    requires v * (|xs| as real) == total
    ensures Sum(xs) == total
  {
    SumOfConstant(xs, v);
    ScaledSum(|xs| as real, v);
  }

  lemma SumOfPixShares(ps: seq<real>, v: real, total: real)
    requires forall k :: 0 <= k < |ps| ==> ps[k] == v * 0.90
    requires v * (|ps| as real) == total
    ensures Sum(ps) == total * 0.90
  {
    SumOfConstant(ps, v * 0.90);
    ScaledSum(|ps| as real, v);
  }

  lemma ScaledSum(c: real, v: real)
    ensures c * (v * 0.90) == (v * c) * 0.90
    ensures c * v == v * c
  {
  }

  /** Each index label splits at '/' into the installment's number, zero
      padded to two digits, and the count; reading both back gives
      `k + 1` and `count`. */
  lemma InstallmentIndexReadsBack(total: real, count: int, k: int)
    requires 0 <= k < count
    ensures var p := Split(InstallmentRows(total, count)[k].index, '/');
      && |p| == 2 && |p[0]| >= 2
      && AllDigits(p[0]) && AllDigits(p[1])
      && ParseNat(p[0]) == k + 1 && ParseNat(p[1]) == count
  {
    var number := PadStart(NatToString(k + 1), 2, '0');
    var total' := IntToString(count);
    ParsePaddedNat(k + 1, 2);
    ParseNatToString(count);
    assert '/' !in number by {
      assert forall i :: 0 <= i < |number| ==> IsDigit(number[i]);
    }
    assert '/' !in total' by {
      assert forall i :: 0 <= i < |total'| ==> IsDigit(total'[i]);
    }
    assert InstallmentIndex(k + 1, count) == number + ['/'] + total';
    SplitFirstBlock(number, '/', total');
    SplitNoSeparator(total', '/');
  }

  /** No two installments share an index label. */
  lemma InstallmentIndicesDistinct(total: real, count: int, j: int, k: int)
    requires 0 <= j < count && 0 <= k < count && j != k
    ensures InstallmentRows(total, count)[j].index != InstallmentRows(total, count)[k].index
  {
    InstallmentIndexReadsBack(total, count, j);
    InstallmentIndexReadsBack(total, count, k);
  }

  /** Every installment after the first is due 30 days after the one before
      it: its description splits into four words, a number that reads 30
      times its position followed by "dias", "após", "início". */
  lemma InstallmentDaysReadBack(total: real, count: int, k: int)
    requires 0 < k < count
    ensures var p := Split(InstallmentRows(total, count)[k].description, ' ');
      && p == [IntToString(30 * k), "dias", "após", "início"]
      && AllDigits(p[0]) && ParseNat(p[0]) == 30 * k
  {
    DescriptionDaysReadBack(k + 1);
  }

  lemma DescriptionDaysReadBack(i: int)
    requires i > 1
    ensures var p := Split(InstallmentDescription(i), ' ');
      && p == [IntToString(30 * (i - 1)), "dias", "após", "início"]
      && AllDigits(p[0]) && ParseNat(p[0]) == 30 * (i - 1)
  {
    var n: nat := 30 * (i - 1);
    assert InstallmentDescription(i) == IntToString(n) + " dias após início";
    DaysWords(n);
    ParseNatToString(n);
  }

  /** A day count followed by " dias após início" splits into the count's
      digits and the three words. */
  lemma DaysWords(n: nat)
    ensures Split(IntToString(n) + " dias após início", ' ') == [IntToString(n), "dias", "após", "início"]
  {
    var days := IntToString(n);
    RenderingHasNoSpace(n);
    assert " dias após início" == [' '] + "dias" + [' '] + "após" + [' '] + "início";
    assert days + " dias após início" == days + [' '] + "dias" + [' '] + "após" + [' '] + "início";
    SplitFourWords(days, "dias", "após", "início");
  }

  /** Four space-free words joined by single spaces split back into the
      same four words. */
  lemma SplitFourWords(a: string, b: string, c: string, d: string)
    requires ' ' !in a && ' ' !in b && ' ' !in c && ' ' !in d
    ensures Split(a + [' '] + b + [' '] + c + [' '] + d, ' ') == [a, b, c, d]
  {
    var t2 := c + [' '] + d;
    var t1 := b + [' '] + t2;
    assert a + [' '] + b + [' '] + c + [' '] + d == a + [' '] + t1;
    SplitNoSeparator(d, ' ');
    SplitFirstBlock(c, ' ', d);
    SplitFirstBlock(b, ' ', t2);
    SplitFirstBlock(a, ' ', t1);
  }

  /** The first word of a space-free block, a space and anything. */
  lemma LeadingWord(a: string, rest: string)
    requires ' ' !in a
    ensures Split(a + [' '] + rest, ' ')[0] == a
  {
    SplitFirstBlock(a, ' ', rest);
  }

  // ---- Long-form date -------------------------------------------------------

  const MonthNames: seq<string> := [
    "janeiro", "fevereiro", "março", "abril", "maio", "junho",
    "julho", "agosto", "setembro", "outubro", "novembro", "dezembro"
  ]

  /** `getCurrentDateExtenso` for a given date: "<day> de <month name> de
      <year>". A date with a non-negative day and year reads back from its
      rendering. */
  function DateExtenso(d: CalendarDate): (s: string)
    requires ValidMonth(d)
    ensures d.day >= 0 && d.year >= 0 ==> ParseExtenso(s) == Some(d)
  {
    if d.day >= 0 && d.year >= 0 then
      LongDateRoundTrip(d);
      LongDate(d.day, MonthNames[d.month0], d.year)
    else
      LongDate(d.day, MonthNames[d.month0], d.year)
  }

  /** The long-form layout: day, " de ", month name, " de ", year. */
  function LongDate(day: int, monthName: string, year: int): string
  {
    IntToString(day) + " de " + monthName + " de " + IntToString(year)
  }

  /** The position of a month name in the table, searching from `i`. */
  function MonthNumberFrom(name: string, i: nat): (m: Option<int>)
    requires i <= |MonthNames|
    ensures m.Some? ==> i <= m.value < |MonthNames| && MonthNames[m.value] == name
    ensures m.None? ==> forall j :: i <= j < |MonthNames| ==> MonthNames[j] != name
    decreases |MonthNames| - i
  {
    if i == |MonthNames| then None
    else if MonthNames[i] == name then Some(i)
    else MonthNumberFrom(name, i + 1)
  }

  /** Reads a long-form date back: five space-separated words, the second
      and fourth "de", the first and last non-empty digit strings, the
      middle a month name. */
  function ParseExtenso(s: string): (r: Option<CalendarDate>)
    ensures r.Some? ==> ValidMonth(r.value) && r.value.day >= 0 && r.value.year >= 0
  {
    var p := Split(s, ' ');
    if |p| == 5 && p[1] == "de" && p[3] == "de"
      && |p[0]| > 0 && AllDigits(p[0]) && |p[4]| > 0 && AllDigits(p[4])
    then
      match MonthNumberFrom(p[2], 0)
      case Some(m) => Some(CalendarDate(ParseNat(p[4]), m, ParseNat(p[0])))
      case None => None
    else None
  }

  lemma MonthNamesDistinct()
    ensures forall i, j :: 0 <= i < j < |MonthNames| ==> MonthNames[i] != MonthNames[j]
  {
  }

  lemma MonthNamesHaveNoSpace()
    ensures forall i :: 0 <= i < |MonthNames| ==> ' ' !in MonthNames[i]
  {
  }

  /** Five space-free words joined by single spaces split back into the
      same five words. */
  lemma SplitFiveWords(a: string, b: string, c: string, d: string, e: string)
    requires ' ' !in a && ' ' !in b && ' ' !in c && ' ' !in d && ' ' !in e
    ensures Split(a + [' '] + b + [' '] + c + [' '] + d + [' '] + e, ' ') == [a, b, c, d, e]
  {
    var t3 := d + [' '] + e;
    var t2 := c + [' '] + t3;
    var t1 := b + [' '] + t2;
    assert a + [' '] + b + [' '] + c + [' '] + d + [' '] + e == a + [' '] + t1;
    SplitNoSeparator(e, ' ');
    SplitFirstBlock(d, ' ', e);
    SplitFirstBlock(c, ' ', t3);
    SplitFirstBlock(b, ' ', t2);
    SplitFirstBlock(a, ' ', t1);
  }

  /** A non-negative number renders without a space. */
  lemma RenderingHasNoSpace(n: int)
    requires n >= 0
    ensures ' ' !in IntToString(n)
  {
    var s := IntToString(n);
    assert forall i :: 0 <= i < |s| ==> IsDigit(s[i]);
  }

  /** The rendering splits at spaces into day, "de", month name, "de",
      year. */
  lemma ExtensoWords(d: CalendarDate)
    requires ValidMonth(d) && d.day >= 0 && d.year >= 0
    ensures Split(LongDate(d.day, MonthNames[d.month0], d.year), ' ') ==
      [IntToString(d.day), "de", MonthNames[d.month0], "de", IntToString(d.year)]
  {
    var day := IntToString(d.day);
    var name := MonthNames[d.month0];
    var year := IntToString(d.year);
    RenderingHasNoSpace(d.day);
    RenderingHasNoSpace(d.year);
    MonthNamesHaveNoSpace();
    assert " de " == [' '] + "de" + [' '];
    assert LongDate(d.day, name, d.year) == day + [' '] + "de" + [' '] + name + [' '] + "de" + [' '] + year;
    SplitFiveWords(day, "de", name, "de", year);
  }

  /** Looking a month's name up finds that month. */
  lemma MonthNumberOfName(m: int)
    requires 0 <= m < |MonthNames|
    ensures MonthNumberFrom(MonthNames[m], 0) == Some(m)
  {
    MonthNamesDistinct();
  }

  /** Every date with a non-negative day and year renders to a string that
      reads back as the same date, so distinct dates render distinctly. */
  lemma LongDateRoundTrip(d: CalendarDate)
    requires ValidMonth(d) && d.day >= 0 && d.year >= 0
    ensures ParseExtenso(LongDate(d.day, MonthNames[d.month0], d.year)) == Some(d)
  {
    ExtensoWords(d);
    ParseNatToString(d.day);
    ParseNatToString(d.year);
    MonthNumberOfName(d.month0);
  }
}
