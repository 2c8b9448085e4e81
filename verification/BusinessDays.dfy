/** Weekend-skipping date arithmetic in UTC. */
module BusinessDays {
  import opened Wrappers

  datatype Result<+T> = Ok(value: T) | ValueError(message: string)

  const SATURDAY := 5
  const SUNDAY := 6
  const DAY := 86_400_000_000  // microseconds

  /** A wall-clock reading in microseconds since the start of ordinal day 0 and,
      unless naive, its offset from UTC. */
  datatype Datetime = Datetime(wall: int, offset: Option<int>)

  function ToUtc(start: Datetime): int {
    match start.offset
    case None => start.wall
    case Some(offset) => start.wall - offset
  }

  /** One instant read at two offsets is one instant in UTC; a reading in UTC, and a
      naive one, say the instant itself. */
  lemma SameInstant(wall: int, offset: int, k: int)
    ensures ToUtc(Datetime(wall + k, Some(offset + k))) == ToUtc(Datetime(wall, Some(offset)))
    ensures ToUtc(Datetime(wall, Some(0))) == ToUtc(Datetime(wall, None)) == wall
  {
  }

  /** Monday is 0; ordinal day 1 was a Monday. */
  function Weekday(day: int): nat { (day + 6) % 7 }

  predicate IsWeekday(day: int) {
    Weekday(day) != SATURDAY && Weekday(day) != SUNDAY
  }

  /** How many weekdays lie after `from`, up to and including `last`. */
  function WeekdaysIn(from: int, last: int): (count: nat)
    decreases last - from
  {
    if last <= from then 0
    else WeekdaysIn(from, last - 1) + (if IsWeekday(last) then 1 else 0)
  }

  /** The closed form: calendar days to advance from a weekday number `w`. */
  function Advance(w: nat, n: nat): int
    requires w < 7
  {
    if n == 0 then 0
    else if w <= 4 then n + 2 * ((w + n) / 5)
    else n + 2 * ((4 + n) / 5) - (w - 4)
  }

  function Landing(day: int, n: nat): int {
    day + Advance(Weekday(day), n)
  }

  // ---- What the landing day is ---------------------------------------------

  lemma WeekdayAfter(day: int, k: int)
    ensures Weekday(day + k) == (Weekday(day) + k) % 7
  {
  }

  /** The first of January of the years 1, 1970 and 2000 by their ordinals: a Monday,
      a Thursday and a Saturday. */
  lemma KnownWeekdays()
    ensures Weekday(1) == 0 && Weekday(719_163) == 3 && Weekday(730_120) == SATURDAY
  {
  }

  /** A reading is so many days of 24 hours and a time of day in microseconds. */
  lemma ReadingOfDay(day: int, hour: nat, minute: nat, second: nat, microsecond: nat)
    requires hour < 24 && minute < 60 && second < 60 && microsecond < 1_000_000
    ensures (((day * 24 + hour) * 60 + minute) * 60 + second) * 1_000_000 + microsecond
            == day * DAY + ((hour * 60 + minute) * 60 + second) * 1_000_000 + microsecond
    ensures ((((day * 24 + hour) * 60 + minute) * 60 + second) * 1_000_000 + microsecond) / DAY == day
  {
  }

  /** From a weekday, the landing day falls (w + n) % 5 days into its week. */
  lemma LandingWeekday(day: int, n: nat)
    requires 1 <= n || Weekday(day) <= 4
    ensures Weekday(Landing(day, n)) ==
            (if Weekday(day) <= 4 then Weekday(day) + n else 4 + n) % 5
  {
    var w := Weekday(day);
    var base := if w <= 4 then w else 4;
    var week, rest := (base + n) / 5, (base + n) % 5;
    assert base + n == 5 * week + rest;
    assert w + Advance(w, n) == 7 * week + rest;
    WeekdayAfter(day, Advance(w, n));
    WholeWeeks(week, rest);
  }

  lemma WholeWeeks(week: int, rest: int)
    requires 0 <= rest < 7
    ensures (7 * week + rest) % 7 == rest
  {
  }

  /** One business day more is one, or over a weekend up to three, days more. */
  lemma NextLanding(day: int, n: nat)
    ensures Landing(day, n) < Landing(day, n + 1)
    ensures IsWeekday(Landing(day, n + 1))
    ensures forall d :: Landing(day, n) < d < Landing(day, n + 1) ==> !IsWeekday(d)
  {
    if n == 0 && Weekday(day) > 4 {
      FromWeekend(day);
    } else {
      LandingWeekday(day, n);
      NextGap(day, n);
      AfterGap(Landing(day, n));
    }
  }

  /** The gap after a Friday is three days, after any other weekday one. */
  lemma NextGap(day: int, n: nat)
    requires 1 <= n || Weekday(day) <= 4
    ensures Landing(day, n + 1) - Landing(day, n) == if Weekday(Landing(day, n)) == 4 then 3 else 1
  {
    LandingWeekday(day, n);
    var base := if Weekday(day) <= 4 then Weekday(day) else 4;
    assert (base + n + 1) / 5 == (base + n) / 5 + (if (base + n) % 5 == 4 then 1 else 0);
  }

  lemma AfterGap(here: int)
    requires Weekday(here) <= 4
    ensures var gap := if Weekday(here) == 4 then 3 else 1;
            IsWeekday(here + gap) && forall d :: here < d < here + gap ==> !IsWeekday(d)
  {
  }

  lemma FromWeekend(day: int)
    requires Weekday(day) > 4
    ensures day < Landing(day, 1) && IsWeekday(Landing(day, 1))
    ensures forall d :: day < d < Landing(day, 1) ==> !IsWeekday(d)
  {
  }

  lemma {:induction false} SkipWeekend(from: int, mid: int, last: int)
    requires from <= mid <= last && forall d :: mid < d <= last ==> !IsWeekday(d)
    ensures WeekdaysIn(from, last) == WeekdaysIn(from, mid)
    decreases last - mid
  {
    if mid < last {
      SkipWeekend(from, mid, last - 1);
    }
  }

  lemma {:induction false} WeekdaysToLanding(day: int, n: nat)
    ensures day <= Landing(day, n) && WeekdaysIn(day, Landing(day, n)) == n
  {
    if n > 0 {
      WeekdaysToLanding(day, n - 1);
      NextLanding(day, n - 1);
      SkipWeekend(day, Landing(day, n - 1), Landing(day, n) - 1);
    }
  }

  lemma {:induction false} CountIsMonotone(from: int, mid: int, last: int)
    requires from <= mid <= last
    ensures WeekdaysIn(from, last) == WeekdaysIn(from, mid) + WeekdaysIn(mid, last)
    decreases last - mid
  {
    if mid < last {
      CountIsMonotone(from, mid, last - 1);
    }
  }

  /** The landing day is the one and only weekday with exactly n weekdays after
      the start up to it, and every other day with n of them is later. */
  lemma LandingIsEarliest(day: int, n: nat, other: int)
    requires 1 <= n
    ensures IsWeekday(Landing(day, n)) && WeekdaysIn(day, Landing(day, n)) == n
    ensures day <= other && WeekdaysIn(day, other) == n ==> Landing(day, n) <= other
    ensures day <= other && WeekdaysIn(day, other) == n && IsWeekday(other) ==> Landing(day, n) == other
  {
    var landing := Landing(day, n);
    WeekdaysToLanding(day, n);
    NextLanding(day, n - 1);
    if day <= other < landing {
      CountIsMonotone(day, other, landing - 1);
    } else if landing < other {
      CountIsMonotone(day, landing, other - 1);
    }
  }

  /** Adding a and then b business days is adding a + b. */
  lemma AddingTwice(day: int, a: nat, b: nat)
    ensures Landing(Landing(day, a), b) == Landing(day, a + b)
  {
    if a > 0 && b > 0 {
      var mid := Landing(day, a);
      WeekdaysToLanding(day, a);
      WeekdaysToLanding(mid, b);
      CountIsMonotone(day, mid, Landing(mid, b));
      NextLanding(mid, b - 1);
      LandingIsEarliest(day, a + b, Landing(mid, b));
    }
  }

  /** More business days land strictly later. */
  lemma LaterForMoreDays(day: int, a: nat, b: nat)
    requires a < b
    ensures Landing(day, a) < Landing(day, b)
  {
    AddingTwice(day, a, b - a);
    WeekdaysToLanding(Landing(day, a), b - a);
  }

  /** A later start never lands earlier. */
  lemma {:induction false} LaterForLaterStart(day: int, later: int, n: nat)
    requires day <= later
    ensures Landing(day, n) <= Landing(later, n)
  {
    if n > 0 {
      WeekdaysToLanding(later, n);
      var end := Landing(later, n);
      CountIsMonotone(day, later, end);
      LandingIsEarliest(day, n, end);
      if end < Landing(day, n) {
        CountIsMonotone(day, end, Landing(day, n) - 1);
      }
    }
  }

  /** A Saturday or Sunday start lands where the Friday before it lands. */
  lemma WeekendStart(day: int, n: nat)
    requires 1 <= n && Weekday(day) > 4
    ensures Weekday(day - (Weekday(day) - 4)) == 4 && Landing(day, n) == Landing(day - (Weekday(day) - 4), n)
  {
    WeekdayAfter(day, -(Weekday(day) - 4));
  }

  /** Tight bounds on the calendar days a wait of n business days can take: the
      lower is reached from a Sunday, the upper from a Friday. */
  lemma AdvanceBounds(day: int, n: nat)
    requires 1 <= n
    ensures n + 2 * ((n - 1) / 5) <= Landing(day, n) - day <= n + 2 * ((n + 4) / 5)
    ensures Weekday(day) == SUNDAY ==> Landing(day, n) - day == n + 2 * ((n - 1) / 5)
    ensures Weekday(day) == 0 && n % 5 != 0 ==> Landing(day, n) - day == n + 2 * ((n - 1) / 5)
    ensures Weekday(day) == 4 ==> Landing(day, n) - day == n + 2 * ((n + 4) / 5)
  {
    Fifths(if Weekday(day) <= 4 then Weekday(day) else 4, n);
  }

  lemma Fifths(w: nat, n: nat)
    requires w <= 4 && 1 <= n
    ensures (n - 1) / 5 <= (w + n) / 5 <= (n + 4) / 5 == (n - 1) / 5 + 1
    ensures n % 5 != 0 ==> n / 5 == (n - 1) / 5
  {
  }

  // ---- The loop -------------------------------------------------------------

  /** Days left until a weekday: the part of the termination measure that
      shrinks when a step lands on a weekend. */
  function DaysToWeekday(day: int): nat {
    if Weekday(day + 1) == SATURDAY then 2 else if Weekday(day + 1) == SUNDAY then 1 else 0
  }

  lemma OneDayOn(t: int)
    ensures (t + DAY) / DAY == t / DAY + 1 && (t + DAY) % DAY == t % DAY
  {
  }

  /** `day` has been reached while looking for the next weekday after `done`. */
  ghost predicate Searching(first: int, done: nat, day: int) {
    Landing(first, done) <= day && forall d :: Landing(first, done) < d <= day ==> !IsWeekday(d)
  }

  lemma StepOneDay(first: int, done: nat, day: int)
    requires Searching(first, done, day)
    ensures if IsWeekday(day + 1) then day + 1 == Landing(first, done + 1) && Searching(first, done + 1, day + 1)
            else Searching(first, done, day + 1) && DaysToWeekday(day + 1) < DaysToWeekday(day)
  {
    NextLanding(first, done);
    WeekdayAfter(day, 1);
    WeekdayAfter(day + 1, 1);
    assert day < Landing(first, done + 1);
  }

  method AddBusinessDays(start: Datetime, businessDays: int) returns (r: Result<int>)
    ensures businessDays < 0 ==> r.ValueError?
    ensures 0 <= businessDays ==>
              && r.Ok?
              && r.value / DAY == Landing(ToUtc(start) / DAY, businessDays)
              && r.value % DAY == ToUtc(start) % DAY
  {
    if businessDays < 0 {
      return ValueError("business_days must be non-negative.");
    }
    var current := ToUtc(start);
    var remaining := businessDays;
    ghost var first, day := current / DAY, current / DAY;
    while remaining > 0
      invariant 0 <= remaining <= businessDays
      invariant day == current / DAY && current % DAY == ToUtc(start) % DAY
      invariant Searching(first, businessDays - remaining, day)
      invariant remaining == 0 ==> day == Landing(first, businessDays)
      decreases remaining, DaysToWeekday(day)
    {
      OneDayOn(current);
      StepOneDay(first, businessDays - remaining, day);
      current := current + DAY;
      day := day + 1;
      if Weekday(current / DAY) != SATURDAY && Weekday(current / DAY) != SUNDAY {
        remaining := remaining - 1;
      }
    }
    r := Ok(current);
  }
}
