/** Calendar arithmetic of the dashboard. A date is its proleptic Gregorian
    ordinal (`date.toordinal()`: 1 is Monday 1 January of year 1), so that
    adding `timedelta(days=1)` adds one and `weekday()` is a remainder. */
module Calendar {

  /** `weekday()`: 0 is Monday, 6 is Sunday. */
  function Weekday(d: int): (w: int)
    ensures 0 <= w < 7
    ensures (d - w) % 7 == 1
  {
    (d + 6) % 7
  }

  /** The day after `d` is one place further in the week, Sunday wrapping
      round to Monday. */
  lemma WeekdayNext(d: int)
    ensures Weekday(d + 1) == if Weekday(d) == 6 then 0 else Weekday(d) + 1
  {
  }

  /** Monday to Friday. */
  predicate IsWorkingDay(d: int) {
    Weekday(d) < 5
  }

  /** The number of working days from `s` to `e`, both included; none when
      `s` is after `e`. */
  function WorkingDays(s: int, e: int): (n: nat)
    decreases e - s
  {
    if e < s then 0 else WorkingDays(s, e - 1) + (if IsWorkingDay(e) then 1 else 0)
  }

  /** The working days of a range, as a set. */
  ghost function WorkingDaySet(s: int, e: int): set<int> {
    set d | s <= d <= e && IsWorkingDay(d)
  }

  /** The count is the size of the set of working days in the range. */
  lemma {:induction false} WorkingDaysCounts(s: int, e: int)
    ensures WorkingDays(s, e) == |WorkingDaySet(s, e)|
    decreases e - s
  {
    if e < s {
      assert WorkingDaySet(s, e) == {};
    } else {
      WorkingDaysCounts(s, e - 1);
      var before := WorkingDaySet(s, e - 1);
      if IsWorkingDay(e) {
        assert WorkingDaySet(s, e) == before + {e};
        assert e !in before;
      } else {
        assert WorkingDaySet(s, e) == before;
      }
    }
  }

  /** Splitting a range after `m` splits its count. */
  lemma {:induction false} WorkingDaysSplit(s: int, m: int, e: int)
    requires s - 1 <= m <= e
    ensures WorkingDays(s, e) == WorkingDays(s, m) + WorkingDays(m + 1, e)
    decreases e - m
  {
    if m < e {
      WorkingDaysSplit(s, m, e - 1);
    }
  }

  /** No more working days than days. */
  lemma {:induction false} WorkingDaysAtMostDays(s: int, e: int)
    ensures s <= e ==> WorkingDays(s, e) <= e - s + 1
    ensures e < s ==> WorkingDays(s, e) == 0
    decreases e - s
  {
    if s <= e {
      WorkingDaysAtMostDays(s, e - 1);
    }
  }

  /** Any seven consecutive days hold exactly five working days. */
  lemma WeekHasFiveWorkingDays(s: int)
    ensures WorkingDays(s, s + 6) == 5
  {
    WeekdayNext(s);
    WeekdayNext(s + 1);
    WeekdayNext(s + 2);
    WeekdayNext(s + 3);
    WeekdayNext(s + 4);
    WeekdayNext(s + 5);
    var c := WorkingDays(s, s - 1);
    assert c == 0;
    c := c + (if IsWorkingDay(s) then 1 else 0);
    assert WorkingDays(s, s) == c;
    c := c + (if IsWorkingDay(s + 1) then 1 else 0);
    assert WorkingDays(s, s + 1) == c;
    c := c + (if IsWorkingDay(s + 2) then 1 else 0);
    assert WorkingDays(s, s + 2) == c;
    c := c + (if IsWorkingDay(s + 3) then 1 else 0);
    assert WorkingDays(s, s + 3) == c;
    c := c + (if IsWorkingDay(s + 4) then 1 else 0);
    assert WorkingDays(s, s + 4) == c;
    c := c + (if IsWorkingDay(s + 5) then 1 else 0);
    assert WorkingDays(s, s + 5) == c;
    c := c + (if IsWorkingDay(s + 6) then 1 else 0);
    assert WorkingDays(s, s + 6) == c;
  }

  /** k whole weeks hold 5k working days, wherever they start. */
  lemma {:induction false} WeeksHaveFiveWorkingDaysEach(s: int, k: nat)
    ensures WorkingDays(s, s + 7 * k - 1) == 5 * k
    decreases k
  {
    if k > 0 {
      WeeksHaveFiveWorkingDaysEach(s, k - 1);
      WorkingDaysSplit(s, s + 7 * (k - 1) - 1, s + 7 * k - 1);
      WeekHasFiveWorkingDays(s + 7 * (k - 1));
    }
  }

  /** The delay of a publication: working days counted minus one, never
      negative (`max(days - 1, 0)`). */
  function Delay(workingDays: int): (r: nat)
    ensures r == if workingDays >= 1 then workingDays - 1 else 0
  {
    if workingDays - 1 > 0 then workingDays - 1 else 0
  }

  /** Publishing on the day of registration, or earlier, is no delay; the
      delay never exceeds the calendar days between the two dates. */
  lemma DelayBounds(reg: int, start: int)
    ensures start <= reg ==> Delay(WorkingDays(reg, start)) == 0
    ensures reg <= start ==> Delay(WorkingDays(reg, start)) <= start - reg
  {
    WorkingDaysAtMostDays(reg, start);
    if start <= reg && reg <= start {
      assert WorkingDays(reg, start) == WorkingDays(reg, start - 1) + (if IsWorkingDay(start) then 1 else 0);
    }
  }
}
