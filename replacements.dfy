/**
 * The monthly replacement quota: the log of replacement records and the
 * count of those dated in a given month, which must stay below two for a
 * further replacement to be allowed.
 */
module Replacements {
  import opened Wrappers
  import opened Calendar

  const MaxReplacementsPerMonth := 2

  /**
   * One entry of `card_replacements`. The count reads the month from the
   * first seven characters of `date`; the stored `month` is never read.
   */
  datatype ReplacementRecord = ReplacementRecord(
    date: string, oldCardId: string, newCardId: string, month: string)

  /** `date[:7]`: Python's slice gives the whole string when it is shorter. */
  function MonthOf(date: string): string {
    if |date| >= 7 then date[..7] else date
  }

  predicate InMonth(r: ReplacementRecord, month: string) {
    MonthOf(r.date) == month
  }

  /** The number of records dated in `month`. */
  function CountInMonth(rs: seq<ReplacementRecord>, month: string): (n: nat)
    ensures n <= |rs|
  {
    if rs == [] then 0
    else CountInMonth(rs[..|rs| - 1], month) + (if InMonth(rs[|rs| - 1], month) then 1 else 0)
  }

  /** `can_replace_card` on a log: fewer than two replacements this month. */
  predicate QuotaAvailable(rs: seq<ReplacementRecord>, month: string)
    ensures |rs| < MaxReplacementsPerMonth ==> QuotaAvailable(rs, month)
  {
    CountInMonth(rs, month) < MaxReplacementsPerMonth
  }

  /** The positions of the records dated in `month`. */
  function IndicesInMonth(rs: seq<ReplacementRecord>, month: string): set<nat> {
    set i: nat | i < |rs| && InMonth(rs[i], month)
  }

  /** The positions of a log are those of all but its last record, plus possibly the last. */
  lemma IndicesOfLastRecord(rs: seq<ReplacementRecord>, month: string)
    requires rs != []
    ensures IndicesInMonth(rs, month)
              == IndicesInMonth(rs[..|rs| - 1], month)
                 + (if InMonth(rs[|rs| - 1], month) then {|rs| - 1} else {})
  {
    var n := |rs| - 1;
    var init := rs[..n];
    var extra: set<nat> := if InMonth(rs[n], month) then {n} else {};
    forall i: nat
      ensures i in IndicesInMonth(rs, month) <==> i in IndicesInMonth(init, month) + extra
    {
      if i < n { assert rs[i] == init[i]; }
    }
  }

  /** The count is the number of positions holding a record of that month. */
  lemma {:induction false} CountIsNumberOfMatches(rs: seq<ReplacementRecord>, month: string)
    ensures CountInMonth(rs, month) == |IndicesInMonth(rs, month)|
  {
    if rs != [] {
      var n := |rs| - 1;
      CountIsNumberOfMatches(rs[..n], month);
      IndicesOfLastRecord(rs, month);
      assert n !in IndicesInMonth(rs[..n], month);
    }
  }

  /** Appending a record raises the count of its own month by one and leaves every other month's. */
  lemma CountAppend(rs: seq<ReplacementRecord>, r: ReplacementRecord, month: string)
    ensures CountInMonth(rs + [r], month) == CountInMonth(rs, month) + (if InMonth(r, month) then 1 else 0)
  {
    assert (rs + [r])[..|rs|] == rs;
  }

  /** Two replacements in a month exhaust the quota for the rest of that month. */
  lemma ThirdReplacementRefused(rs: seq<ReplacementRecord>, r1: ReplacementRecord,
                                r2: ReplacementRecord, month: string)
    requires InMonth(r1, month) && InMonth(r2, month)
    ensures !QuotaAvailable(rs + [r1] + [r2], month)
  {
    CountAppend(rs, r1, month);
    CountAppend(rs + [r1], r2, month);
  }

  /** A month with no records has its whole quota, whatever earlier months used. */
  lemma {:induction false} NewMonthHasFullQuota(rs: seq<ReplacementRecord>, month: string)
    requires forall i :: 0 <= i < |rs| ==> !InMonth(rs[i], month)
    ensures CountInMonth(rs, month) == 0 && QuotaAvailable(rs, month)
  {
    if rs != [] {
      NewMonthHasFullQuota(rs[..|rs| - 1], month);
    }
  }

  /** A record stamped at `now` is counted in the month of `now`, and in no other month. */
  lemma StampedRecordCountsInItsMonth(now: DateTime, oldId: string, newId: string, month: string)
    requires Valid(now)
    ensures InMonth(ReplacementRecord(Stamp(now), oldId, newId, MonthStamp(now)), month) <==> month == MonthStamp(now)
  {
    StampStartsWithMonth(now);
  }

  // ---------------------------------------------------------------------
  // The waiting time shown when the quota is used up

  /**
   * The whole days until the next replacement, as `replace_virtual_card`
   * computes them: the first of the next month is built with
   * `replace(day=1, month=month + 1)`, which raises ValueError in
   * December (`None` here) because the month is not carried into the year.
   */
  function DaysLeftAsWritten(now: DateTime): (r: Option<int>)
    requires Valid(now)
    ensures r.None? <==> now.month == 12
  {
    if now.month + 1 > 12 then None
    else Some(DaysInMonth(now.year, now.month) - now.day + 1)
  }

  /**
   * The whole days from `now` to the same time of day on the first of the
   * next month, December included: `replace(day=1, ...)` keeps the clock
   * time, so the difference is a whole number of days.
   */
  function DaysUntilNextMonth(now: DateTime): (d: int)
    requires Valid(now)
    ensures 1 <= d <= DaysInMonth(now.year, now.month)
  {
    DaysInMonth(now.year, now.month) - now.day + 1
  }

  /**
   * The corrected waiting time ends with the month: one day before it runs
   * out is the last day of the month, computed independently as the day
   * before the first of the next month.
   */
  lemma DaysUntilNextMonthEndsWithMonth(now: DateTime)
    requires Valid(now) && !(now.year == MaxYear && now.month == 12)
    ensures LastDayOfMonth(now.year, now.month)
              == Some(Midnight(now.year, now.month, now.day + DaysUntilNextMonth(now) - 1))
  {
    LastDayOfMonthIsMonthEnd(now.year, now.month);
  }

  /** Outside December the wallet's figure is the corrected one. */
  lemma DaysLeftAsWrittenAgreesOutsideDecember(now: DateTime)
    requires Valid(now) && now.month != 12
    ensures DaysLeftAsWritten(now) == Some(DaysUntilNextMonth(now))
  {
  }

  /** On 10 December 2025 the refusal raises instead of announcing 22 days. */
  lemma DecemberRefusalRaises()
    ensures DaysLeftAsWritten(DateTime(2025, 12, 10, 9, 0, 0, 0)).None?
    ensures DaysUntilNextMonth(DateTime(2025, 12, 10, 9, 0, 0, 0)) == 22
  {
  }
}
