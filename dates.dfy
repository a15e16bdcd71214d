/**
 * The day menu of the log-selection forms: starting from today's midnight, one entry
 * per day going back while the day still starts after the course start, at most 365
 * entries. The platform clock and the user's midnight are inputs; the labels are
 * represented by the instant they are formatted from.
 */
module DateBuckets {
  import opened Decimal

  const MaxDays: nat := 365

  /** A menu entry: "all days" (key 0), or a day keyed by its midnight and labelled from `shownTime`. */
  datatype DateOption = AllDays | Day(midnight: int, shownTime: int)

  /** The course start the menu counts back to: the creation time when the start date is unset or in the future. */
  function EffectiveStart(startDate: int, timeCreated: int, timeNow: int): int {
    if startDate == 0 || startDate > timeNow then timeCreated else startDate
  }

  /** The number of whole-or-partial days between `start` and `today` (0 when today is not after start). */
  function Steps(today: int, start: int): nat {
    if today <= start then 0 else (today - start + 86399) / 86400
  }

  /** How many day entries the menu holds: today plus the days back to the start, capped at 365. */
  function DayCount(today: int, start: int): (n: nat)
    ensures 1 <= n <= MaxDays
  {
    1 + if Steps(today, start) < MaxDays - 1 then Steps(today, start) else MaxDays - 1
  }

  /** The first `n` days counted back from `today` (midnight) and `now` (label instant). */
  function DayList(today: int, now: int, n: nat): (ds: seq<DateOption>)
    ensures |ds| == n
  {
    seq(n, i requires 0 <= i < n => Day(today - i * 86400, now - i * 86400))
  }

  /**
   * The counting loop: `dates` holds the entries listed so far, the loop stops once the
   * last listed midnight is not after the start or 365 entries are listed.
   */
  method DateOptions(timeNow: int, todayMidnight: int, start: int) returns (dates: seq<DateOption>)
    ensures dates == DayList(todayMidnight, timeNow, DayCount(todayMidnight, start))
  {
    var midnight := todayMidnight;
    var now := timeNow;
    dates := [Day(midnight, now)];
    var numDates := 1;
    while midnight > start && numDates < 365
      invariant 1 <= numDates <= MaxDays
      invariant midnight == todayMidnight - (numDates - 1) * 86400
      invariant now == timeNow - (numDates - 1) * 86400
      invariant dates == DayList(todayMidnight, timeNow, numDates)
      invariant forall i :: 0 <= i < numDates - 1 ==> todayMidnight - i * 86400 > start
      decreases MaxDays - numDates
    {
      midnight := midnight - 86400;
      now := now - 86400;
      dates := dates + [Day(midnight, now)];
      numDates := numDates + 1;
    }
    CountClosedForm(todayMidnight, start, numDates);
  }

  /** The menu of the MNet report: "all days" first, then the day entries. */
  method MnetDateOptions(timeNow: int, todayMidnight: int, start: int) returns (dates: seq<DateOption>)
    ensures dates == [AllDays] + DayList(todayMidnight, timeNow, DayCount(todayMidnight, start))
  {
    var days := DateOptions(timeNow, todayMidnight, start);
    dates := [AllDays] + days;
  }

  /** The selected date as submitted, with "today" replaced by today's midnight. */
  function SelectedDate(selected: string, today: int): (r: string)
    ensures selected == "today" ==> r == IntToDecimal(today)
    ensures selected != "today" ==> r == selected
  {
    if selected == "today" then IntToDecimal(today) else selected
  }

  /** The course record whose start date the menu builder overwrites. */
  class CourseRecord {
    var startDate: int
    var timeCreated: int

    constructor (startDate: int, timeCreated: int)
      ensures this.startDate == startDate && this.timeCreated == timeCreated
    {
      this.startDate := startDate;
      this.timeCreated := timeCreated;
    }

    /** Replaces an unset or future start by the creation time, then lists the days. */
    method DayMenu(timeNow: int, todayMidnight: int) returns (dates: seq<DateOption>)
      modifies this
      ensures startDate == EffectiveStart(old(startDate), timeCreated, timeNow)
      ensures timeCreated == old(timeCreated)
      ensures dates == DayList(todayMidnight, timeNow, DayCount(todayMidnight, startDate))
    {
      if startDate == 0 || startDate > timeNow {
        startDate := timeCreated;
      }
      dates := DateOptions(timeNow, todayMidnight, startDate);
    }
  }

  // ---------------------------------------------------------------------------
  // The closed form and what it means

  /** Around `Steps`: day `i` back still starts after `start` exactly when i < Steps. */
  lemma StepsBound(today: int, start: int, i: int)
    requires 0 <= i
    ensures today - i * 86400 > start <==> i < Steps(today, start)
  {
    if today > start {
      var d := today - start;
      var s := Steps(today, start);
      assert (s - 1) * 86400 < d <= s * 86400;
      if i < s {
        assert i * 86400 <= (s - 1) * 86400;
      } else {
        assert i * 86400 >= s * 86400;
      }
    }
  }

  /**
   * The loop's exit condition determines the count: a list whose days all start after
   * `start` except perhaps the last, and which stops at the start or at 365 entries,
   * has DayCount entries.
   */
  lemma CountClosedForm(today: int, start: int, n: int)
    requires 1 <= n <= MaxDays
    requires forall i :: 0 <= i < n - 1 ==> today - i * 86400 > start
    requires n == MaxDays || today - (n - 1) * 86400 <= start
    ensures n == DayCount(today, start)
  {
    var s := Steps(today, start);
    if n - 1 > s {
      assert today - s * 86400 > start;
      StepsBound(today, start, s);
    }
    if n < MaxDays {
      StepsBound(today, start, n - 1);
    }
  }

  /**
   * Conversely, the listed days are what the form promises: every day but the last
   * starts after the course start, the last one does not unless the cap was reached,
   * the midnights strictly decrease by one day (so the keys are distinct), and every
   * label instant keeps today's offset from midnight.
   */
  lemma DayListMeaning(today: int, now: int, start: int)
    ensures var ds := DayList(today, now, DayCount(today, start));
      && (forall i :: 0 <= i < |ds| - 1 ==> ds[i].midnight > start)
      && (|ds| < MaxDays ==> ds[|ds| - 1].midnight <= start)
      && (forall i :: 0 <= i < |ds| - 1 ==> ds[i + 1].midnight == ds[i].midnight - 86400)
      && (forall i :: 0 <= i < |ds| ==> ds[i].Day? && ds[i].shownTime - ds[i].midnight == now - today)
  {
    var ds := DayList(today, now, DayCount(today, start));
    forall i | 0 <= i < |ds| - 1
      ensures ds[i].midnight > start
    {
      StepsBound(today, start, i);
    }
    if |ds| < MaxDays {
      StepsBound(today, start, |ds| - 1);
    }
  }

  /** When the cap is not reached, the oldest listed day is the one containing the start. */
  lemma DayListReachesStart(today: int, now: int, start: int)
    requires today > start
    requires DayCount(today, start) < MaxDays
    ensures var ds := DayList(today, now, DayCount(today, start));
      ds[|ds| - 1].midnight <= start < ds[|ds| - 1].midnight + 86400
  {
    var n := DayCount(today, start);
    StepsBound(today, start, n - 1);
    StepsBound(today, start, n - 2);
  }
}
