/** Working days.  A date is a day number; day number 0 is a Sunday. */
module Calendar {

  const SUNDAY := 0
  const FRIDAY := 5
  const SATURDAY := 6

  function DayOfWeek(date: int): int {
    date % 7
  }

  predicate IsWeekend(date: int) {
    DayOfWeek(date) == SUNDAY || DayOfWeek(date) == SATURDAY
  }

  /** The first day after `date` that is not a weekend day. */
  function NextWorkingDay(date: int): (next: int)
    decreases if IsWeekend(date + 1) then if IsWeekend(date + 2) then 2 else 1 else 0
  {
    if IsWeekend(date + 1) then NextWorkingDay(date + 1) else date + 1
  }

  lemma {:induction false} FirstWorkingDay(date: int)
    ensures date < NextWorkingDay(date) <= date + 3 && !IsWeekend(NextWorkingDay(date))
    ensures forall d :: date < d < NextWorkingDay(date) ==> IsWeekend(d)
    ensures NextWorkingDay(date)
         == date + if date % 7 == 5 then 3 else if date % 7 == 6 then 2 else 1
    decreases if IsWeekend(date + 1) then if IsWeekend(date + 2) then 2 else 1 else 0
  {
    if IsWeekend(date + 1) {
      FirstWorkingDay(date + 1);
    }
  }

  /** The source's branches on the day of the week find that day. */
  method GetNextWorkingDay(currentDay: int) returns (next: int)
    ensures next == NextWorkingDay(currentDay)
  {
    FirstWorkingDay(currentDay);
    next := currentDay;
    var dayOfWeek := DayOfWeek(next);
    if dayOfWeek == FRIDAY {
      next := next + 3;
    } else if dayOfWeek == SATURDAY {
      next := next + 2;
    } else {
      next := next + 1;
    }
  }

  /** The working days of [lo, hi), in order. */
  function Weekdays(lo: int, hi: int): seq<int>
    decreases hi - lo
  {
    if hi <= lo then []
    else Weekdays(lo, hi - 1) + (if IsWeekend(hi - 1) then [] else [hi - 1])
  }

  lemma {:induction false} WeekdaysMembers(lo: int, hi: int)
    ensures forall d :: d in Weekdays(lo, hi) <==> lo <= d < hi && d % 7 != 0 && d % 7 != 6
    ensures forall i, j :: 0 <= i < j < |Weekdays(lo, hi)| ==> Weekdays(lo, hi)[i] < Weekdays(lo, hi)[j]
    decreases hi - lo
  {
    if lo < hi {
      WeekdaysMembers(lo, hi - 1);
      var front := Weekdays(lo, hi - 1);
      assert forall i :: 0 <= i < |front| ==> front[i] in front;
    }
  }

  function CountWeekdays(lo: int, hi: int): nat {
    |Weekdays(lo, hi)|
  }

  lemma {:induction false} WeekdaysSplit(lo: int, mid: int, hi: int)
    requires lo <= mid <= hi
    ensures Weekdays(lo, hi) == Weekdays(lo, mid) + Weekdays(mid, hi)
    decreases hi - mid
  {
    if mid < hi {
      WeekdaysSplit(lo, mid, hi - 1);
    }
  }

  lemma {:induction false} OnlyWeekend(lo: int, hi: int)
    requires forall d :: lo <= d < hi ==> IsWeekend(d)
    ensures Weekdays(lo, hi) == []
    decreases hi - lo
  {
    if lo < hi {
      OnlyWeekend(lo, hi - 1);
    }
  }

  /** Up to and including the next working day there is exactly one working day. */
  lemma StepToNext(date: int)
    ensures Weekdays(date + 1, NextWorkingDay(date) + 1) == [NextWorkingDay(date)]
  {
    FirstWorkingDay(date);
    OnlyWeekend(date + 1, NextWorkingDay(date));
  }

  lemma NextConsumesOne(date: int, end: int)
    ensures if NextWorkingDay(date) < end
            then Weekdays(date + 1, end) == [NextWorkingDay(date)] + Weekdays(NextWorkingDay(date) + 1, end)
            else Weekdays(date + 1, end) == []
  {
    var next := NextWorkingDay(date);
    FirstWorkingDay(date);
    if next < end {
      StepToNext(date);
      WeekdaysSplit(date + 1, next + 1, end);
    } else {
      OnlyWeekend(date + 1, end);
    }
  }

  /** The days an instance asks for: `NextWorkingDay` applied again and again. */
  function Chain(date: int, end: int): seq<int>
    decreases end - date
  {
    FirstWorkingDay(date);
    var next := NextWorkingDay(date);
    if next < end then [next] + Chain(next, end) else []
  }

  /** Starting from the day before `start`, the chain lists exactly the days the producer posts. */
  lemma {:induction false} ChainListsWeekdays(date: int, end: int)
    ensures Chain(date, end) == Weekdays(date + 1, end)
    decreases end - date
  {
    FirstWorkingDay(date);
    NextConsumesOne(date, end);
    if NextWorkingDay(date) < end {
      ChainListsWeekdays(NextWorkingDay(date), end);
    }
  }

  /** The producer's date loop, which skips Saturdays and Sundays. */
  method ProducerDates(start: int, end: int) returns (days: seq<int>)
    ensures days == Weekdays(start, end)
    ensures days == Chain(start - 1, end)
  {
    days := [];
    var date := start;
    while date < end
      invariant start <= date && (date <= end || date == start)
      invariant days == Weekdays(start, date)
    {
      var dayOfWeek := DayOfWeek(date);
      if !(dayOfWeek == SUNDAY || dayOfWeek == SATURDAY) {
        days := days + [date];
      }
      date := date + 1;
    }
    ChainListsWeekdays(start - 1, end);
  }
}
