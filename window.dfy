/** The exclusion window: the settings index chooses how many days of history
    count towards the solved set, and that becomes the first `from_second`
    cursor of the submission feed. */
module ExclusionWindow {

  /** Days of history for each settings index; -1 means all of it. */
  const DayMap: seq<int> := [-1, 7, 14, 28, 180, 365, 730]
  const AllTime: int := -1
  const MsPerDay: int := 86400000
  const MsPerSecond: int := 1000

  function ExcludeDaysFromFilter(filterIndex: int): (days: int)
    requires 0 <= filterIndex < |DayMap|
    ensures days == AllTime <==> filterIndex == 0
    ensures filterIndex > 0 ==> days >= 7
  {
    DayMap[filterIndex]
  }

  /** The cursor for `excludeDays` days before `nowMs` (milliseconds since the
      epoch), rounded down to whole seconds; 0 when the whole history counts. */
  function CalculateFromSecond(excludeDays: int, nowMs: int): (fromSecond: int)
    ensures excludeDays == AllTime ==> fromSecond == 0
    ensures excludeDays != AllTime ==>
              fromSecond * MsPerSecond <= nowMs - excludeDays * MsPerDay < fromSecond * MsPerSecond + MsPerSecond
  {
    if excludeDays == AllTime then 0 else (nowMs - excludeDays * MsPerDay) / MsPerSecond
  }

  /** The cursor lies exactly `excludeDays * 86400` seconds before the current
      second. */
  lemma FromSecondIsWholeDaysBack(excludeDays: int, nowMs: int)
    requires excludeDays != AllTime
    ensures CalculateFromSecond(excludeDays, nowMs) == nowMs / MsPerSecond - excludeDays * 86400
  {
    var q := nowMs / MsPerSecond;
    assert q * MsPerSecond <= nowMs < q * MsPerSecond + MsPerSecond;
    assert excludeDays * MsPerDay == (excludeDays * 86400) * MsPerSecond;
  }

  /** A longer window starts no later than a shorter one. */
  lemma WiderWindowStartsEarlier(i: int, j: int, nowMs: int)
    requires 1 <= i <= j < |DayMap|
    ensures CalculateFromSecond(ExcludeDaysFromFilter(j), nowMs) <= CalculateFromSecond(ExcludeDaysFromFilter(i), nowMs)
  {
    FromSecondIsWholeDaysBack(DayMap[i], nowMs);
    FromSecondIsWholeDaysBack(DayMap[j], nowMs);
  }
}
