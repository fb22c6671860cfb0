/**
 * Local midnights and trading days. A time zone is its offset from UTC at each instant; instants and offsets are
 * whole seconds.
 */
module LocalTime {
  import opened Wrappers
  import opened Calendar

  const DAY := 86_400

  type Zone = int -> int

  datatype Parts = Parts(date: Civil, second: int)

  function Local(instant: int, zone: Zone): int {
    instant + zone(instant)
  }

  /** What a formatter shows for an instant: the local date and the second of that day. */
  function LocalParts(instant: int, zone: Zone): Parts {
    Parts(CivilOf(Local(instant, zone) / DAY), Local(instant, zone) % DAY)
  }

  function Midnight(date: Civil): int {
    DayNumber(date) * DAY
  }

  /** The next guess: off by what the clock shows too much or too little. */
  function Nudged(instant: int, date: Civil, zone: Zone): int {
    instant + (Midnight(date) - Local(instant, zone))
  }

  function NudgedTimes(instant: int, date: Civil, zone: Zone, n: nat): int
    decreases n
  {
    if n == 0 then instant else NudgedTimes(Nudged(instant, date, zone), date, zone, n - 1)
  }

  const ATTEMPTS := 3

  /** Midnight as read in UTC, nudged three times. */
  function Guess(date: Civil, zone: Zone): int {
    NudgedTimes(Midnight(date), date, zone, ATTEMPTS)
  }

  predicate IsLocalMidnight(instant: int, date: Civil, zone: Zone) {
    LocalParts(instant, zone) == Parts(date, 0)
  }

  lemma NoNudgeLeft(instant: int, date: Civil, zone: Zone, n: nat)
    requires Local(instant, zone) == Midnight(date)
    ensures NudgedTimes(instant, date, zone, n) == instant
    decreases n
  {
    hide DayNumber;
    if n > 0 {
      NoNudgeLeft(instant, date, zone, n - 1);
    }
  }

  lemma PartsRestore(instant: int, zone: Zone)
    ensures var parts := LocalParts(instant, zone); DayNumber(parts.date) * DAY + parts.second == Local(instant, zone)
  {
  }

  /** In any zone, whatever is returned is local midnight of the date asked for; otherwise the date is refused. */
  method ZonedStartOfDay(date: Civil, zone: Zone) returns (r: Option<int>)
    ensures r == if IsLocalMidnight(Guess(date, zone), date, zone) then Some(Guess(date, zone)) else None
  {
    hide DayNumber, CivilOf, Local;
    var localEpoch := DayNumber(date) * DAY;
    var instant := localEpoch;
    var attempt := 0;
    while attempt < ATTEMPTS
      invariant 0 <= attempt <= ATTEMPTS
      invariant NudgedTimes(instant, date, zone, ATTEMPTS - attempt) == Guess(date, zone)
    {
      var observed := LocalParts(instant, zone);
      PartsRestore(instant, zone);
      var observedEpoch := DayNumber(observed.date) * DAY + observed.second;
      var adjustment := localEpoch - observedEpoch;
      if adjustment == 0 {
        NoNudgeLeft(instant, date, zone, ATTEMPTS - attempt);
        break;
      }
      instant := instant + adjustment;
      attempt := attempt + 1;
    }
    if LocalParts(instant, zone) == Parts(date, 0) {
      r := Some(instant);
    } else {
      r := None;
    }
  }

  // ---------------------------------------------------------------- zones that change once

  /** Offsets stay within a bound, and near the date there is one change, from `a` to `b` at some instant. */
  ghost predicate ChangesOnce(zone: Zone, around: int, bound: int, change: int, a: int, b: int) {
    && -bound <= a <= bound && -bound <= b <= bound && (forall t :: -bound <= zone(t) <= bound)
    && (forall t | around - bound <= t <= around + bound :: zone(t) == if t < change then a else b)
  }

  lemma MidnightByOffset(instant: int, date: Civil, zone: Zone)
    ensures IsLocalMidnight(instant, date, zone) <==> Exists(date) && Local(instant, zone) == Midnight(date)
  {
    hide DayNumber, CivilOf, Exists;
    CivilRoundTrip(date);
    PartsRestore(instant, zone);
    if Local(instant, zone) == Midnight(date) {
      assert Local(instant, zone) / DAY == DayNumber(date) && Local(instant, zone) % DAY == 0;
    }
    if IsLocalMidnight(instant, date, zone) {
      assert Exists(CivilOf(Local(instant, zone) / DAY));
    }
  }

  lemma GuessUnfolds(date: Civil, zone: Zone)
    ensures var l := Midnight(date);
            Guess(date, zone) == l - zone(l - zone(l - zone(l)))
  {
    hide DayNumber;
    var l := Midnight(date);
    var one := Nudged(l, date, zone);
    var two := Nudged(one, date, zone);
    assert NudgedTimes(l, date, zone, 3) == NudgedTimes(one, date, zone, 2) == NudgedTimes(two, date, zone, 1);
    assert NudgedTimes(two, date, zone, 1) == NudgedTimes(Nudged(two, date, zone), date, zone, 0);
  }

  /** The instants that can read as local epoch `l`, and what the three nudges make of them. */
  lemma NudgesSettle(l: int, zone: Zone, bound: int, change: int, a: int, b: int)
    requires ChangesOnce(zone, l, bound, change, a, b)
    ensures var guess := l - zone(l - zone(l - zone(l)));
            Local(guess, zone) == l <==> l - a < change || change <= l - b
    ensures forall t | Local(t, zone) == l :: t == l - a < change || (t == l - b && change <= t)
    ensures l - a < change ==> Local(l - a, zone) == l
    ensures change <= l - b ==> Local(l - b, zone) == l
  {
    forall t | Local(t, zone) == l
      ensures t == l - a < change || (t == l - b && change <= t)
    {
      assert -bound <= zone(t) <= bound;
    }
  }

  /**
   * With at most one change of offset nearby, three attempts find local midnight of a real date exactly when there
   * is one; they fail exactly when the clock skips it.
   */
  lemma FindsMidnightExactly(date: Civil, zone: Zone, bound: int, change: int, a: int, b: int)
    requires ChangesOnce(zone, Midnight(date), bound, change, a, b)
    ensures IsLocalMidnight(Guess(date, zone), date, zone) <==> exists t :: IsLocalMidnight(t, date, zone)
    ensures Exists(date) ==>
              ((exists t :: IsLocalMidnight(t, date, zone)) <==> !(Midnight(date) - b < change <= Midnight(date) - a))
  {
    hide IsLocalMidnight, Midnight, Local, Guess, ChangesOnce, Exists;
    var l := Midnight(date);
    GuessUnfolds(date, zone);
    NudgesSettle(l, zone, bound, change, a, b);
    MidnightByOffset(Guess(date, zone), date, zone);
    MidnightByOffset(l - a, date, zone);
    MidnightByOffset(l - b, date, zone);
    forall t | IsLocalMidnight(t, date, zone)
      ensures Exists(date) && Local(t, zone) == l
    {
      MidnightByOffset(t, date, zone);
    }
  }

  /** A clock falling back over midnight strikes it twice, and the side of the change UTC midnight is on decides. */
  lemma RepeatedMidnight(date: Civil, zone: Zone, bound: int, change: int, a: int, b: int)
    requires ChangesOnce(zone, Midnight(date), bound, change, a, b)
    requires Midnight(date) - a < change <= Midnight(date) - b
    ensures Guess(date, zone) == Midnight(date) - if Midnight(date) < change then a else b
    ensures Local(Midnight(date) - a, zone) == Local(Midnight(date) - b, zone) == Midnight(date)
  {
    hide Midnight;
    GuessUnfolds(date, zone);
  }

  /** Two changes close together can hide a midnight that exists: the guesses swing over it from side to side. */
  lemma TwoChangesMissMidnight(date: Civil, zone: Zone, a: int, b: int, c: int)
    requires Exists(date) && a != c
    requires var l := Midnight(date); zone(l) == c && zone(l - c) == a && zone(l - a) == c && zone(l - b) == b
    ensures IsLocalMidnight(Midnight(date) - b, date, zone) && !IsLocalMidnight(Guess(date, zone), date, zone)
  {
    hide Midnight, IsLocalMidnight;
    GuessUnfolds(date, zone);
    MidnightByOffset(Midnight(date) - b, date, zone);
    MidnightByOffset(Guess(date, zone), date, zone);
  }

  // ---------------------------------------------------------------- days added to a date

  function AddDays(date: Civil, days: int): Civil {
    CivilOf(DayNumber(date) + days)
  }

  /** Days add up, forwards and backwards, across months, years and leap days. */
  lemma DaysAddUp(date: Civil, m: int, n: int)
    ensures AddDays(AddDays(date, m), n) == AddDays(date, m + n)
    ensures Exists(date) ==> AddDays(date, 0) == date
    ensures Earlier(AddDays(date, m), AddDays(date, n)) <==> m < n
  {
    hide DayNumber, CivilOf, Exists;
    CivilRoundTrip(date);
    DayNumbersFollowDates(AddDays(date, m), AddDays(date, n));
  }

  // ---------------------------------------------------------------- trading days

  const MINUTES := 1_440

  /** The cutoff's hours and minutes, as read from its text. */
  function CutoffMinutes(hours: nat, minutes: nat): Option<nat> {
    if hours * 60 + minutes >= MINUTES then None else Some(hours * 60 + minutes)
  }

  function BusinessDate(parts: Parts, hours: nat, minutes: nat): Option<Civil> {
    match CutoffMinutes(hours, minutes)
    case None => None
    case Some(cutoff) =>
      if parts.second / 60 >= cutoff then Some(parts.date)
      else Some(CivilOf(DayNumber(Civil(parts.date.year, parts.date.month, parts.date.day - 1))))
  }

  lemma DayBefore(date: Civil)
    ensures DayNumber(Civil(date.year, date.month, date.day - 1)) == DayNumber(date) - 1
  {
    hide YearStart, MonthStart;
  }

  lemma SameDayNumberSameDate(a: Civil, b: Civil)
    requires Exists(a) && Exists(b) && DayNumber(a) == DayNumber(b)
    ensures a == b
  {
    hide DayNumber, Exists;
    DayNumbersFollowDates(a, b);
    DayNumbersFollowDates(b, a);
  }

  /** An instant's business date is the one real date whose trading day, from its cutoff to the next, contains it. */
  lemma BusinessDateIsUnique(instant: int, zone: Zone, hours: nat, minutes: nat, date: Civil)
    requires CutoffMinutes(hours, minutes).Some? && Exists(date)
    ensures var start := Midnight(date) + CutoffMinutes(hours, minutes).value * 60;
            BusinessDate(LocalParts(instant, zone), hours, minutes) == Some(date) <==>
              start <= Local(instant, zone) < start + DAY
  {
    hide DayNumber, Exists, CivilOf;
    var parts := LocalParts(instant, zone);
    var cutoff := CutoffMinutes(hours, minutes).value;
    PartsRestore(instant, zone);
    DayBefore(parts.date);
    var found := BusinessDate(parts, hours, minutes).value;
    assert Exists(found);
    assert DayNumber(found) == DayNumber(parts.date) - if parts.second / 60 >= cutoff then 0 else 1;
    assert parts.second / 60 >= cutoff <==> parts.second >= cutoff * 60;
    if DayNumber(found) == DayNumber(date) {
      SameDayNumberSameDate(found, date);
    }
  }

  /** Later local times never have earlier business dates. */
  lemma BusinessDateIsMonotone(x: int, y: int, zone: Zone, hours: nat, minutes: nat)
    requires CutoffMinutes(hours, minutes).Some? && Local(x, zone) <= Local(y, zone)
    ensures !Earlier(BusinessDate(LocalParts(y, zone), hours, minutes).value,
                     BusinessDate(LocalParts(x, zone), hours, minutes).value)
  {
    hide DayNumber, Exists, CivilOf, Local, LocalParts, Earlier;
    var a, b := BusinessDate(LocalParts(x, zone), hours, minutes).value,
      BusinessDate(LocalParts(y, zone), hours, minutes).value;
    BusinessDatesExist(x, zone, hours, minutes);
    BusinessDatesExist(y, zone, hours, minutes);
    BusinessDateIsUnique(x, zone, hours, minutes, a);
    BusinessDateIsUnique(y, zone, hours, minutes, b);
    DayNumbersFollowDates(b, a);
  }

  lemma BusinessDatesExist(instant: int, zone: Zone, hours: nat, minutes: nat)
    requires CutoffMinutes(hours, minutes).Some?
    ensures BusinessDate(LocalParts(instant, zone), hours, minutes).Some?
    ensures Exists(BusinessDate(LocalParts(instant, zone), hours, minutes).value)
  {
    hide DayNumber, Exists, CivilOf;
  }

  // ---------------------------------------------------------------- days and clocks

  /** Where the clock is not changed, a local midnight is followed by the next 24 hours later, and by none before. */
  lemma MidnightsAreADayApart(instant: int, zone: Zone, date: Civil, seconds: nat)
    requires IsLocalMidnight(instant, date, zone) && 0 < seconds <= 24 * 60 * 60
    requires zone(instant + seconds) == zone(instant)
    ensures IsLocalMidnight(instant + seconds, AddDays(date, 1), zone) <==> seconds == 24 * 60 * 60
  {
    hide DayNumber, CivilOf, Exists;
    var n := Local(instant, zone) / DAY;
    assert Local(instant + seconds, zone) == n * DAY + seconds;
    assert CivilOf(n) == date;
    DayBefore(AddDays(date, 1));
  }

  /** A cutoff is accepted exactly when it is a time of day, and is that many minutes after midnight. */
  lemma CutoffIsTimeOfDay(hours: nat, minutes: nat)
    requires minutes < 60
    ensures CutoffMinutes(hours, minutes).Some? <==> hours < 24
    ensures hours < 24 ==> CutoffMinutes(hours, minutes).value * 60 == hours * 3_600 + minutes * 60
  {
  }
}
