/**
 * `condense_old_entries`: starting from today, step back to the month
 * before last, then walk back month by month twelve times, asking the store
 * to condense each month.  The first exception, from the calendar or from
 * the store, ends the walk.
 */
module Schedule {
  import opened Wrappers
  import opened Calendar
  import opened Crypto
  import opened Models

  /** How many months are condensed. */
  const MONTHS_BACK: nat := 12

  /** A calendar month, as passed to `condense_journal_entries`. */
  datatype Month = Month(month: int, year: int)

  /** Months counted from January of year 0, so that consecutive months have consecutive indexes. */
  function MonthIndex(m: Month): int {
    m.year * 12 + m.month - 1
  }

  function MonthAt(i: int): (m: Month)
    ensures 1 <= m.month <= 12
  {
    Month(i % 12 + 1, i / 12)
  }

  /** Month indexes and months are one and the same. */
  lemma MonthIndexRoundTrip(i: int, m: Month)
    requires 1 <= m.month <= 12
    ensures MonthIndex(MonthAt(i)) == i
    ensures MonthAt(MonthIndex(m)) == m
  {
  }

  function MonthOf(t: DateTime): Month {
    Month(t.month, t.year)
  }

  /** `t.replace(day=1)`. */
  function FirstOfMonth(t: DateTime): DateTime {
    t.(day := 1)
  }

  /** `(t.replace(day=1) - timedelta(days=1)).replace(day=1)`: the first of the month before. */
  function MonthBefore(t: DateTime): (r: Result<DateTime, DateError>)
    requires Valid(t)
    ensures r.Ok? ==> Valid(r.value)
  {
    match PrevDay(FirstOfMonth(t))
    case Err(e) => Err(e)
    case Ok(u) => Ok(FirstOfMonth(u))
  }

  /**
   * Each step goes back exactly one month, January to December of the year
   * before, keeping the time of day; only January of year 1 has no month
   * before it.
   */
  lemma MonthBeforeSpec(t: DateTime)
    requires Valid(t)
    ensures MonthBefore(t).Err? <==> t.year == MINYEAR && t.month == 1
    ensures MonthBefore(t).Err? ==> MonthBefore(t).error == OverflowError
    ensures MonthBefore(t).Ok? ==>
      var u := MonthBefore(t).value;
      && MonthIndex(MonthOf(u)) == MonthIndex(MonthOf(t)) - 1
      && (if t.month == 1 then u.month == 12 && u.year == t.year - 1 else u.month == t.month - 1 && u.year == t.year)
      && u.day == 1 && u.hour == t.hour && u.minute == t.minute && u.second == t.second
      && u.microsecond == t.microsecond
  {
    var f := FirstOfMonth(t);
    if !(t.year == MINYEAR && t.month == 1) {
      PrevDayFromFirst(f);
    }
  }

  /** The months condensed when nothing fails: the twelve months before the month before last, newest first. */
  function Plan(today: DateTime): (plan: seq<Month>)
    ensures |plan| == MONTHS_BACK
  {
    seq(MONTHS_BACK, k => MonthAt(MonthIndex(MonthOf(today)) - 2 - k))
  }

  /** The plan never touches the current month or the one before it, and steps back one month at a time. */
  lemma PlanSkipsRecent(today: DateTime)
    requires Valid(today)
    ensures forall k :: 0 <= k < MONTHS_BACK ==> MonthIndex(Plan(today)[k]) == MonthIndex(MonthOf(today)) - 2 - k
    ensures forall k :: 0 <= k < MONTHS_BACK ==> Plan(today)[k] != MonthOf(today)
    ensures forall k :: 0 <= k < MONTHS_BACK ==> MonthIndex(Plan(today)[k]) < MonthIndex(MonthOf(today)) - 1
  {
    forall k | 0 <= k < MONTHS_BACK
      ensures MonthIndex(Plan(today)[k]) == MonthIndex(MonthOf(today)) - 2 - k
    {
      MonthIndexRoundTrip(MonthIndex(MonthOf(today)) - 2 - k, MonthOf(today));
    }
  }

  /** In June 2024 the months condensed are April 2024 back to May 2023. */
  lemma PlanJune2024(today: DateTime)
    requires today.year == 2024 && today.month == 6
    ensures Plan(today) == [Month(4, 2024), Month(3, 2024), Month(2, 2024), Month(1, 2024),
                            Month(12, 2023), Month(11, 2023), Month(10, 2023), Month(9, 2023),
                            Month(8, 2023), Month(7, 2023), Month(6, 2023), Month(5, 2023)]
  {
    var p := Plan(today);
    assert MonthIndex(MonthOf(today)) == 24293;
    assert p[0] == MonthAt(24291) == Month(4, 2024);
    assert p[1] == MonthAt(24290) == Month(3, 2024);
    assert p[2] == MonthAt(24289) == Month(2, 2024);
    assert p[3] == MonthAt(24288) == Month(1, 2024);
    assert p[4] == MonthAt(24287) == Month(12, 2023);
    assert p[5] == MonthAt(24286) == Month(11, 2023);
    assert p[6] == MonthAt(24285) == Month(10, 2023);
    assert p[7] == MonthAt(24284) == Month(9, 2023);
    assert p[8] == MonthAt(24283) == Month(8, 2023);
    assert p[9] == MonthAt(24282) == Month(7, 2023);
    assert p[10] == MonthAt(24281) == Month(6, 2023);
    assert p[11] == MonthAt(24280) == Month(5, 2023);
  }

  /** What ends the walk early. */
  datatype ScheduleError = DateStep(cause: DateError) | StoreStep(failure: StoreError)

  /**
   * The store after condensing the given months in order, stopping at the
   * first call that fails; and how the last call ended.
   */
  function CondenseEach(s: Store, k: Key, months: seq<Month>): (Store, Outcome<StoreError>) {
    if months == [] then (s, Pass)
    else
      var (t, status) := CondenseEach(s, k, months[..|months| - 1]);
      if status.Fail? then (t, status)
      else
        var m := months[|months| - 1];
        var want := Condense(t, k, m.month, m.year);
        (After(t, want), Status(want))
  }

  lemma PlanNext(today: DateTime, n: nat, calls: seq<Month>, month: Month)
    requires n < MONTHS_BACK && calls == Plan(today)[..n] && 1 <= month.month <= 12
    requires MonthIndex(month) == MonthIndex(MonthOf(today)) - 2 - n
    ensures Plan(today)[..n + 1] == calls + [month]
  {
    MonthIndexRoundTrip(MonthIndex(MonthOf(today)) - 2 - n, month);
    assert Plan(today)[n] == month;
  }

  /** Condensing one more month after a run without failure is one more call of `Condense`. */
  lemma CondenseEachNext(s: Store, k: Key, months: seq<Month>, m: Month)
    requires CondenseEach(s, k, months).1 == Pass
    ensures var t := CondenseEach(s, k, months).0;
      var want := Condense(t, k, m.month, m.year);
      CondenseEach(s, k, months + [m]) == (After(t, want), Status(want))
  {
    assert (months + [m])[..|months|] == months;
  }

  /** The lowest month index a walk can reach without leaving year 1. */
  const FIRST_INDEX: int := MonthIndex(Month(1, MINYEAR))

  /**
   * `condense_old_entries` on an unlocked database: the months it passes to
   * the store, a prefix of the plan, and why it stopped.  Every month of the
   * plan is passed until the store fails; the calendar fails only when the
   * walk would go back past January of year 1.
   */
  method CondenseOldEntries(db: Database, today: DateTime) returns (calls: seq<Month>, r: Outcome<ScheduleError>)
    requires Valid(today) && db.isOpen && db.Valid()
    modifies db
    ensures db.isOpen && db.Valid()
    ensures |calls| <= MONTHS_BACK && calls == Plan(today)[..|calls|]
    ensures db.Contents() == CondenseEach(old(db.Contents()), db.key, calls).0
    ensures r.Pass? ==> |calls| == MONTHS_BACK && CondenseEach(old(db.Contents()), db.key, calls).1 == Pass
    ensures r.Fail? && r.error.StoreStep? ==> CondenseEach(old(db.Contents()), db.key, calls).1 == Fail(r.error.failure)
    ensures r.Fail? && r.error.DateStep? ==>
      && r.error.cause == OverflowError && CondenseEach(old(db.Contents()), db.key, calls).1 == Pass
      && MonthIndex(MonthOf(today)) - 2 - |calls| < FIRST_INDEX
    ensures MonthIndex(MonthOf(today)) - 2 - MONTHS_BACK >= FIRST_INDEX ==> !(r.Fail? && r.error.DateStep?)
  {
    calls := [];
    ghost var s0 := db.Contents();
    var twoMonthsAgo := PrevDay(FirstOfMonth(today));
    MonthBeforeSpec(today);
    if twoMonthsAgo.Err? {
      return calls, Fail(DateStep(twoMonthsAgo.error));
    }
    var current := FirstOfMonth(twoMonthsAgo.value);
    assert current == MonthBefore(today).value;
    var n := 0;
    while n < MONTHS_BACK
      invariant n <= MONTHS_BACK && |calls| == n
      invariant Valid(current) && MonthIndex(MonthOf(current)) == MonthIndex(MonthOf(today)) - 1 - n
      invariant calls == Plan(today)[..n]
      invariant db.isOpen && db.Valid() && db.Contents() == CondenseEach(s0, db.key, calls).0
      invariant CondenseEach(s0, db.key, calls).1 == Pass
    {
      var previous := PrevDay(FirstOfMonth(current));
      MonthBeforeSpec(current);
      if previous.Err? {
        return calls, Fail(DateStep(previous.error));
      }
      current := FirstOfMonth(previous.value);
      var month := Month(current.month, current.year);
      PlanNext(today, n, calls, month);
      CondenseEachNext(s0, db.key, calls, month);
      calls := calls + [month];
      var status := db.CondenseJournalEntries(current.month, current.year);
      if status.Fail? {
        return calls, Fail(StoreStep(status.error));
      }
      n := n + 1;
    }
    r := Pass;
  }
}
