/**
 * Period keys and the ordered period lists the gap-filling passes walk
 * (index.ts:7-8, 150, 225-233).  A yearly key is `${year}`; a monthly key
 * is the first 7 characters of an ISO date, `YYYY-MM`.
 */
module Periods {
  import opened Numerals
  import opened Region

  /** MIN_YEAR */
  const MinYear: int := 2021

  /** The yearly key `${year}`. */
  function YearKey(year: int): string {
    IntText(year)
  }

  /** `new Date(Date.UTC(year, month0, 1)).toISOString().substring(0, 7)` for a 4-digit year. */
  function MonthKey(year: int, month0: int): (k: string)
    requires 0 <= year <= 9999 && 0 <= month0 <= 11
    ensures |k| == 7 && k[4] == '-'
  {
    Pad(year, 4) + "-" + Pad(month0 + 1, 2)
  }

  /** A monthly key gives back its year and month. */
  lemma MonthKeyParts(year: int, month0: int)
    requires 0 <= year <= 9999 && 0 <= month0 <= 11
    ensures AllDigits(MonthKey(year, month0)[..4]) && Value(MonthKey(year, month0)[..4]) == year
    ensures AllDigits(MonthKey(year, month0)[5..7]) && Value(MonthKey(year, month0)[5..7]) == month0 + 1
  {
    var k := MonthKey(year, month0);
    assert k[..4] == Pad(year, 4);
    assert k[5..7] == Pad(month0 + 1, 2);
    ValueOfPad(year, 4);
    ValueOfPad(month0 + 1, 2);
  }

  /** Distinct (year, month) pairs have distinct monthly keys. */
  lemma MonthKeyInjective(y1: int, m1: int, y2: int, m2: int)
    requires 0 <= y1 <= 9999 && 0 <= m1 <= 11
    requires 0 <= y2 <= 9999 && 0 <= m2 <= 11
    requires y1 != y2 || m1 != m2
    ensures MonthKey(y1, m1) != MonthKey(y2, m2)
  {
    MonthKeyParts(y1, m1);
    MonthKeyParts(y2, m2);
  }

  /** A yearly key of a non-negative year is never a monthly key. */
  lemma YearKeyIsNotMonthKey(y: int, y2: int, m2: int)
    requires y >= 0 && 0 <= y2 <= 9999 && 0 <= m2 <= 11
    ensures YearKey(y) != MonthKey(y2, m2)
  {
    var k := MonthKey(y2, m2);
    var a := YearKey(y);
    if |a| == 7 {
      assert IsDigit(a[4]) && !IsDigit(k[4]);
    }
  }

  /** Number of years MIN_YEAR..currentYear. */
  function YearCount(currentYear: int): nat {
    if currentYear >= MinYear then currentYear - MinYear + 1 else 0
  }

  /** The yearly periods in the order the passes visit them: MIN_YEAR..currentYear. */
  function YearPeriods(currentYear: int): (ps: seq<string>)
    ensures |ps| == YearCount(currentYear)
    ensures forall i :: 0 <= i < |ps| ==> ps[i] == YearKey(MinYear + i)
  {
    seq(YearCount(currentYear), i => YearKey(MinYear + i))
  }

  /** The monthly periods in the order the passes visit them: January..December of each year. */
  function MonthPeriods(currentYear: int): (ps: seq<string>)
    requires currentYear <= 9999
    ensures |ps| == 12 * YearCount(currentYear)
    ensures forall i :: 0 <= i < |ps| ==> ps[i] == MonthKey(MinYear + i / 12, i % 12)
  {
    seq(12 * YearCount(currentYear), i requires 0 <= i < 12 * YearCount(currentYear) => MonthKey(MinYear + i / 12, i % 12))
  }

  /** The periods of one pass. */
  function PassPeriods(yearly: bool, currentYear: int): seq<string>
    requires currentYear <= 9999
  {
    if yearly then YearPeriods(currentYear) else MonthPeriods(currentYear)
  }

  /** No period is visited twice in a pass. */
  lemma PassPeriodsDistinct(yearly: bool, currentYear: int)
    requires currentYear <= 9999
    ensures Distinct(PassPeriods(yearly, currentYear))
  {
    if yearly {
      YearPeriodsDistinct(currentYear);
    } else {
      MonthPeriodsDistinct(currentYear);
    }
  }

  lemma YearPeriodsDistinct(currentYear: int)
    ensures Distinct(YearPeriods(currentYear))
  {
    var ps := YearPeriods(currentYear);
    forall i, j | 0 <= i < j < |ps| ensures ps[i] != ps[j] {
      DecimalInjective(MinYear + i, MinYear + j);
    }
  }

  lemma MonthPeriodsDistinct(currentYear: int)
    requires currentYear <= 9999
    ensures Distinct(MonthPeriods(currentYear))
  {
    var ps := MonthPeriods(currentYear);
    forall i, j | 0 <= i < j < |ps| ensures ps[i] != ps[j] {
      MonthIndexInjective(i, j);
      MonthKeyInjective(MinYear + i / 12, i % 12, MinYear + j / 12, j % 12);
    }
  }

  /** Two different flat month indices differ in their year or their month. */
  lemma MonthIndexInjective(i: nat, j: nat)
    requires i != j
    ensures i / 12 != j / 12 || i % 12 != j % 12
  {
    assert i == 12 * (i / 12) + i % 12;
    assert j == 12 * (j / 12) + j % 12;
  }
}
