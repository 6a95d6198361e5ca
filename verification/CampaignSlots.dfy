/** Slot scheduling and the send window of `app/reactivation.py`. Instants are seconds since
    1970-01-01 in UTC; the campaign's zone is a fixed offset. */
module CampaignSlots {
  import opened Options
  import opened Times

  datatype Schedule = Schedule(startDate: int, dailyLimit: int, startHour: int, endHour: int, offset: int)

  /** What campaign creation validates. */
  predicate ValidSchedule(c: Schedule) {
    c.dailyLimit >= 1 && 0 <= c.startHour < c.endHour <= 23
  }

  function WindowSeconds(c: Schedule): int {
    (c.endHour - c.startHour) * 3600
  }

  /** At least one window second for every send of a day. */
  predicate Roomy(c: Schedule) {
    c.dailyLimit <= WindowSeconds(c)
  }

  function Spacing(c: Schedule): (s: int)
    requires ValidSchedule(c)
    ensures s >= 1
  {
    var share := WindowSeconds(c) / c.dailyLimit;
    if share > 1 then share else 1
  }

  // ----- Calendar -----

  /** 1970-01-01 was a Thursday; Monday is 0. */
  function Weekday(date: int): (w: int)
    ensures 0 <= w < 7
  {
    (date + 3) % 7
  }

  predicate IsWorkday(date: int) {
    Weekday(date) < 5
  }

  function DateOf(local: int): int {
    local / DAY
  }

  lemma WeekdayAfter(date: int)
    ensures Weekday(date + 1) == if Weekday(date) == 6 then 0 else Weekday(date) + 1
  {
  }

  function WorkdayFrom(date: int): (r: int)
    ensures IsWorkday(r) && date <= r
    ensures forall d :: date <= d < r ==> !IsWorkday(d)
  {
    WeekdayAfter(date);
    WeekdayAfter(date + 1);
    hide Weekday;
    if IsWorkday(date) then date else if IsWorkday(date + 1) then date + 1 else date + 2
  }

  method NextWeekday(value: int) returns (result: int)
    ensures result == WorkdayFrom(value)
  {
    result := value;
    while Weekday(result) >= 5
      invariant value <= result <= WorkdayFrom(value)
      invariant forall d :: value <= d < result ==> !IsWorkday(d)
      decreases WorkdayFrom(value) - result
    {
      result := result + 1;
    }
  }

  // ----- The grid of send slots, in local time -----

  function Slot(c: Schedule, date: int, index: int): int
    requires ValidSchedule(c)
  {
    date * DAY + c.startHour * 3600 + index * Spacing(c)
  }

  ghost predicate GridAt(c: Schedule, local: int, date: int, index: int)
    requires ValidSchedule(c)
  {
    c.startDate <= date && IsWorkday(date) && 0 <= index < c.dailyLimit && local == Slot(c, date, index)
  }

  ghost predicate IsGridPoint(c: Schedule, local: int)
    requires ValidSchedule(c)
  {
    exists date, index :: GridAt(c, local, date, index)
  }

  /** The UTC instant `t` is a grid point of the campaign. */
  ghost predicate OnGrid(c: Schedule, t: int)
    requires ValidSchedule(c)
  {
    IsGridPoint(c, t + c.offset)
  }

  predicate InWindow(c: Schedule, at: int) {
    var local := at + c.offset;
    IsWorkday(DateOf(local)) && c.startHour * 3600 <= local - DateOf(local) * DAY < c.endHour * 3600
  }

  lemma MulMonotone(a: int, b: int, s: int)
    requires a <= b && s >= 1
    ensures a * s <= b * s
    ensures a < b ==> a * s + s <= b * s
  {
    assert (b - a) * s >= 0;
    if a < b { assert (b - a - 1) * s >= 0; }
  }

  /** With room, a day's slots stay inside its window. */
  lemma SlotInDay(c: Schedule, date: int, index: int)
    requires ValidSchedule(c) && Roomy(c) && 0 <= index <= c.dailyLimit
    ensures date * DAY + c.startHour * 3600 <= Slot(c, date, index) <= date * DAY + c.endHour * 3600
    ensures index < c.dailyLimit ==> Slot(c, date, index) < date * DAY + c.endHour * 3600
    ensures index < c.dailyLimit ==> DateOf(Slot(c, date, index)) == date
  {
    var s := Spacing(c);
    assert s == WindowSeconds(c) / c.dailyLimit;
    assert c.dailyLimit * s <= WindowSeconds(c);
    MulMonotone(index, c.dailyLimit, s);
    MulMonotone(0, index, s);
  }

  lemma WithRoom(c: Schedule, date: int)
    requires ValidSchedule(c) && Roomy(c) && IsWorkday(date)
    ensures forall index :: 0 <= index < c.dailyLimit ==> InWindow(c, Slot(c, date, index) - c.offset)
  {
    forall index | 0 <= index < c.dailyLimit
      ensures InWindow(c, Slot(c, date, index) - c.offset)
    {
      SlotInDay(c, date, index);
    }
  }

  /** Every slot of a workday lies in the send window exactly when the window has room for all, as it
      has for each of the limits that campaign creation accepts. */
  lemma SlotsFitExactlyWithRoom(c: Schedule, date: int)
    requires ValidSchedule(c) && IsWorkday(date)
    ensures (forall index :: 0 <= index < c.dailyLimit ==> InWindow(c, Slot(c, date, index) - c.offset)) <==> Roomy(c)
    ensures c.dailyLimit <= 100 ==> Roomy(c)
  {
    if Roomy(c) {
      WithRoom(c, date);
    } else {
      CrowdedSlot(c, date);
      assert !InWindow(c, Slot(c, date, WindowSeconds(c)) - c.offset);
    }
  }

  lemma SmallQuotient(a: int, b: int)
    requires 0 <= a < b
    ensures a / b == 0
  {
  }

  lemma CrowdedSpacing(c: Schedule)
    requires ValidSchedule(c) && !Roomy(c)
    ensures Spacing(c) == 1
  {
    SmallQuotient(WindowSeconds(c), c.dailyLimit);
  }

  /** Without room the spacing is one second and some slot falls on the end of the window. */
  lemma CrowdedSlot(c: Schedule, date: int)
    requires ValidSchedule(c) && !Roomy(c)
    ensures Slot(c, date, WindowSeconds(c)) == date * DAY + c.endHour * 3600
    ensures DateOf(Slot(c, date, WindowSeconds(c))) == date
  {
    CrowdedSpacing(c);
    hide Spacing;
  }

  lemma GridPointBounds(c: Schedule, local: int, date: int, index: int, day: int, at: int)
    requires ValidSchedule(c) && Roomy(c) && GridAt(c, local, date, index) && 0 <= at < c.dailyLimit
    ensures local < Slot(c, day, at) ==> date < day || (date == day && index < at)
    ensures local > Slot(c, day, at) ==> date > day || (date == day && index > at)
    ensures local == Slot(c, day, at) ==> date == day && index == at
  {
    SlotInDay(c, date, index);
    SlotInDay(c, day, at);
    if date == day {
      if index < at { MulMonotone(index, at, Spacing(c)); }
      if index > at { MulMonotone(at, index, Spacing(c)); }
    }
  }

  // ----- Scheduling -----

  /** `result` lists, in order, exactly the grid points after `at` and before the local time `limit`. */
  ghost predicate Lists(c: Schedule, at: int, result: seq<int>, limit: int)
    requires ValidSchedule(c)
  {
    && (forall j, k :: 0 <= j < k < |result| ==> result[j] < result[k])
    && (forall k :: 0 <= k < |result| ==>
          result[k] > at && result[k] + c.offset < limit && OnGrid(c, result[k]))
    && (forall t :: t in ListedTimes(c, at, limit) ==> t in result)
  }

  ghost function ListedTimes(c: Schedule, at: int, limit: int): iset<int>
    requires ValidSchedule(c)
  {
    iset t | at < t && t + c.offset < limit && OnGrid(c, t)
  }

  lemma NextSlot(c: Schedule, at: int, result: seq<int>, day: int, index: int)
    requires ValidSchedule(c) && Roomy(c) && c.startDate <= day && IsWorkday(day) && 0 <= index < c.dailyLimit
    requires Lists(c, at, result, Slot(c, day, index))
    ensures var slot := Slot(c, day, index) - c.offset;
      Lists(c, at, if slot <= at then result else result + [slot], Slot(c, day, index + 1))
  {
    var slot := Slot(c, day, index) - c.offset;
    var next := if slot <= at then result else result + [slot];
    SlotInDay(c, day, index + 1);
    assert GridAt(c, slot + c.offset, day, index);
    assert Slot(c, day, index + 1) == Slot(c, day, index) + Spacing(c) by { MulMonotone(index, index + 1, Spacing(c)); }
    forall t | t in ListedTimes(c, at, Slot(c, day, index + 1))
      ensures t in next
    {
      var date, i :| GridAt(c, t + c.offset, date, i);
      GridPointBounds(c, t + c.offset, date, i, day, index);
      SlotInDay(c, date, i);
      if date == day && i > index { MulMonotone(index + 1, i, Spacing(c)); }
      if t < slot { assert t in ListedTimes(c, at, Slot(c, day, index)); }
    }
  }

  lemma NextDay(c: Schedule, at: int, result: seq<int>, day: int)
    requires ValidSchedule(c) && Roomy(c) && Lists(c, at, result, Slot(c, day, c.dailyLimit))
    ensures Lists(c, at, result, Slot(c, WorkdayFrom(day + 1), 0))
  {
    var next := WorkdayFrom(day + 1);
    SlotInDay(c, day, c.dailyLimit);
    SlotInDay(c, next, 0);
    forall t | t in ListedTimes(c, at, Slot(c, next, 0))
      ensures t in result
    {
      var date, i :| GridAt(c, t + c.offset, date, i);
      GridPointBounds(c, t + c.offset, date, i, next, 0);
      assert date <= day;
      SlotInDay(c, date, i);
      if date == day { MulMonotone(i, c.dailyLimit, Spacing(c)); }
      assert t in ListedTimes(c, at, Slot(c, day, c.dailyLimit));
    }
  }

  lemma FirstDay(c: Schedule, at: int, day: int)
    requires ValidSchedule(c) && Roomy(c)
    requires var today := DateOf(at + c.offset); day == WorkdayFrom(if c.startDate > today then c.startDate else today)
    ensures Lists(c, at, [], Slot(c, day, 0))
  {
    forall t | t in ListedTimes(c, at, Slot(c, day, 0))
      ensures false
    {
      var date, i :| GridAt(c, t + c.offset, date, i);
      GridPointBounds(c, t + c.offset, date, i, day, 0);
      SlotInDay(c, date, i);
      assert false;
    }
  }

  /** The first `count` grid points after `at`: nothing on the grid is skipped or invented. */
  ghost predicate FirstSlotsAfter(c: Schedule, at: int, result: seq<int>)
    requires ValidSchedule(c)
  {
    && (forall j, k :: 0 <= j < k < |result| ==> result[j] < result[k])
    && (forall k :: 0 <= k < |result| ==> result[k] > at && OnGrid(c, result[k]))
    && (forall t :: at < t && OnGrid(c, t) ==> t in result || forall k :: 0 <= k < |result| ==> result[k] < t)
  }

  lemma ListedAreFirst(c: Schedule, at: int, result: seq<int>, limit: int)
    requires ValidSchedule(c) && Lists(c, at, result, limit)
    ensures FirstSlotsAfter(c, at, result)
  {
    forall t | at < t && OnGrid(c, t)
      ensures t in result || forall k :: 0 <= k < |result| ==> result[k] < t
    {
      if t + c.offset < limit { assert t in ListedTimes(c, at, limit); }
    }
  }

  method ScheduleSlots(c: Schedule, count: nat, at: int) returns (result: seq<int>)
    requires ValidSchedule(c) && Roomy(c)
    ensures |result| == count && FirstSlotsAfter(c, at, result)
    ensures forall k :: 0 <= k < count ==> InWindow(c, result[k])
  {
    hide Lists;
    var localNow := at + c.offset;
    var today := DateOf(localNow);
    var currentDate := NextWeekday(if c.startDate > today then c.startDate else today);
    FirstDay(c, at, currentDate);
    result := [];
    ghost var limit := Slot(c, currentDate, 0);
    while |result| < count
      invariant |result| <= count && Lists(c, at, result, limit)
      invariant currentDate >= today && currentDate >= c.startDate && IsWorkday(currentDate)
      invariant |result| < count ==> limit == Slot(c, currentDate, 0)
      decreases count - |result|, if Slot(c, currentDate, 0) > localNow then 0 else 1
    {
      if Weekday(currentDate) >= 5 {
        currentDate := NextWeekday(currentDate);
      }
      var start := currentDate * DAY + c.startHour * 3600;
      ghost var before := result;
      var index := 0;
      while index < c.dailyLimit && |result| < count
        invariant 0 <= index <= c.dailyLimit && |before| <= |result| <= count
        invariant limit == Slot(c, currentDate, index) && Lists(c, at, result, limit)
        invariant index > 0 && Slot(c, currentDate, 0) > localNow ==> |result| > |before|
        decreases c.dailyLimit - index
      {
        var slot := start + index * Spacing(c);
        NextSlot(c, at, result, currentDate, index);
        if slot > localNow {
          result := result + [slot - c.offset];
        }
        index := index + 1;
        limit := Slot(c, currentDate, index);
      }
      if |result| < count {
        NextDay(c, at, result, currentDate);
        limit := Slot(c, WorkdayFrom(currentDate + 1), 0);
      }
      currentDate := NextWeekday(currentDate + 1);
    }
    ListedAreFirst(c, at, result, limit);
    AllInWindow(c, at, result);
  }

  lemma AllInWindow(c: Schedule, at: int, result: seq<int>)
    requires ValidSchedule(c) && Roomy(c) && FirstSlotsAfter(c, at, result)
    ensures forall k :: 0 <= k < |result| ==> InWindow(c, result[k])
  {
    forall k | 0 <= k < |result|
      ensures InWindow(c, result[k])
    {
      assert OnGrid(c, result[k]);
      var date, index :| GridAt(c, result[k] + c.offset, date, index);
      WithRoom(c, date);
    }
  }

  /** Slots `steps` apart on one local date are at least `steps` apart on the grid. */
  lemma {:induction false} SameDateIndices(c: Schedule, at: int, result: seq<int>, k: nat, steps: nat)
      returns (index: int)
    requires ValidSchedule(c) && Roomy(c) && FirstSlotsAfter(c, at, result) && k + steps < |result|
    requires DateOf(result[k] + c.offset) == DateOf(result[k + steps] + c.offset)
    ensures steps <= index < c.dailyLimit
    ensures result[k + steps] + c.offset == Slot(c, DateOf(result[k] + c.offset), index)
    decreases steps
  {
    assert OnGrid(c, result[k + steps]);
    var date, i :| GridAt(c, result[k + steps] + c.offset, date, i);
    SlotInDay(c, date, i);
    index := i;
    if steps > 0 {
      assert result[k] < result[k + steps] && result[k + steps - 1] < result[k + steps];
      assert steps > 1 ==> result[k] < result[k + steps - 1];
      var earlier := SameDateIndices(c, at, result, k, steps - 1);
      if i <= earlier { MulMonotone(i, earlier, Spacing(c)); }
    }
  }

  /** No local date receives more than `dailyLimit` slots. */
  lemma DailyLimitHolds(c: Schedule, at: int, result: seq<int>, k: nat)
    requires ValidSchedule(c) && Roomy(c) && FirstSlotsAfter(c, at, result) && k + c.dailyLimit < |result|
    ensures DateOf(result[k] + c.offset) < DateOf(result[k + c.dailyLimit] + c.offset)
  {
    assert result[k] < result[k + c.dailyLimit];
    if DateOf(result[k] + c.offset) == DateOf(result[k + c.dailyLimit] + c.offset) {
      var index := SameDateIndices(c, at, result, k, c.dailyLimit);
    }
  }

  // ----- The send window -----

  function NextCampaignWindow(c: Schedule, at: int): Option<int> {
    var local := at + c.offset;
    var today := DateOf(local);
    var current := WorkdayFrom(today);
    var start := current * DAY + c.startHour * 3600;
    var end := current * DAY + c.endHour * 3600;
    if IsWorkday(today) && start <= local < end then None
    else if IsWorkday(today) && local < start then Some(start - c.offset)
    else Some(WorkdayFrom(today + 1) * DAY + c.startHour * 3600 - c.offset)
  }

  /** The guard lets a send through exactly inside the window and otherwise names the least
      later instant that is inside it. */
  lemma WindowIsLeast(c: Schedule, at: int)
    requires ValidSchedule(c)
    ensures NextCampaignWindow(c, at).None? <==> InWindow(c, at)
    ensures var w := NextCampaignWindow(c, at);
      w.Some? ==> w.value > at && InWindow(c, w.value) && forall t :: at < t < w.value ==> !InWindow(c, t)
  {
    var w := NextCampaignWindow(c, at);
    if w.Some? {
      var opening := DateOf(w.value + c.offset);
      forall t | at < t < w.value
        ensures !InWindow(c, t)
      {
        var date := DateOf(t + c.offset);
        assert DateOf(at + c.offset) <= date <= opening;
      }
    }
  }

  lemma SlotsPassTheGuard(c: Schedule, at: int, result: seq<int>)
    requires ValidSchedule(c) && Roomy(c) && FirstSlotsAfter(c, at, result)
    ensures forall k :: 0 <= k < |result| ==> NextCampaignWindow(c, result[k]).None?
  {
    AllInWindow(c, at, result);
    forall k | 0 <= k < |result| ensures NextCampaignWindow(c, result[k]).None? {
      WindowIsLeast(c, result[k]);
    }
  }

  // ----- Days, hours and seconds -----

  /** 1970-01-01, date 0, was a Thursday: the third and the fourth day from each Thursday are the weekend. */
  predicate IsWeekend(date: int) {
    date % 7 == 2 || date % 7 == 3
  }

  /** The seconds between two slots of a day: an even share of the window, but at least one. */
  predicate IsGap(c: Schedule, gap: int) {
    && gap >= 1
    && var window := 3600 * c.endHour - 3600 * c.startHour;
    if window < c.dailyLimit then gap == 1 else c.dailyLimit * gap <= window < c.dailyLimit * gap + c.dailyLimit
  }

  /** So many seconds into a weekday on which the campaign may send. */
  ghost predicate IsSendSecond(c: Schedule, local: int, date: int, second: int) {
    local == 86400 * date + second && 0 <= second < 86400 && date >= c.startDate && !IsWeekend(date)
  }

  predicate IsSlotSecond(c: Schedule, second: int, index: int, gap: int) {
    0 <= index < c.dailyLimit && second == 3600 * c.startHour + index * gap
  }

  lemma QuotientIs(a: int, b: int, q: int)
    requires b >= 1
    ensures b * q <= a < b * q + b <==> q == a / b
  {
    var share := a / b;
    assert b * share <= a < b * share + b;
    if q < share { MulMonotone(q, share, b); }
    if q > share { MulMonotone(share, q, b); }
  }

  lemma SpacingIsGap(c: Schedule, gap: int)
    requires ValidSchedule(c)
    ensures IsGap(c, gap) <==> gap == Spacing(c)
  {
    var window, limit := WindowSeconds(c), c.dailyLimit;
    QuotientIs(window, limit, gap);
    if window < limit {
      SmallQuotient(window, limit);
    } else {
      AtLeastOne(window, limit);
    }
  }

  lemma AtLeastOne(a: int, b: int)
    requires 1 <= b <= a
    ensures a / b >= 1
  {
    QuotientIs(a, b, a / b);
  }

  /** With room, the slots are exactly these: on every weekday from the start date, from the start hour, every
      gap, as many as the daily limit. */
  lemma GridExactly(c: Schedule, local: int, gap: int)
    requires ValidSchedule(c) && Roomy(c) && IsGap(c, gap)
    ensures IsGridPoint(c, local) <==>
      exists date, second, index :: IsSendSecond(c, local, date, second) && IsSlotSecond(c, second, index, gap)
  {
    hide Spacing, IsGap, GridAt, IsSendSecond, IsSlotSecond;
    if date, index :| GridAt(c, local, date, index) {
      SlotHasSecond(c, local, date, index, gap);
    }
    if date, second, index :| IsSendSecond(c, local, date, second) && IsSlotSecond(c, second, index, gap) {
      SecondHasSlot(c, local, date, second, index, gap);
    }
  }

  lemma SlotHasSecond(c: Schedule, local: int, date: int, index: int, gap: int)
    requires ValidSchedule(c) && Roomy(c) && IsGap(c, gap) && GridAt(c, local, date, index)
    ensures IsSendSecond(c, local, date, local - 86400 * date)
      && IsSlotSecond(c, local - 86400 * date, index, gap)
  {
    SpacingIsGap(c, gap);
    SlotInDay(c, date, index);
    hide Spacing, IsGap;
  }

  lemma SecondHasSlot(c: Schedule, local: int, date: int, second: int, index: int, gap: int)
    requires ValidSchedule(c) && IsGap(c, gap)
    requires IsSendSecond(c, local, date, second) && IsSlotSecond(c, second, index, gap)
    ensures GridAt(c, local, date, index)
  {
    SpacingIsGap(c, gap);
    hide Spacing, IsGap;
  }

  /** A send may leave on a weekday from the start hour until the end hour of the campaign's zone. */
  lemma WindowExactly(c: Schedule, at: int, date: int, second: int)
    requires ValidSchedule(c) && at + c.offset == 86400 * date + second && 0 <= second < 86400
    ensures InWindow(c, at) <==> !IsWeekend(date) && 3600 * c.startHour <= second < 3600 * c.endHour
  {
    assert DateOf(at + c.offset) == date;
  }
}
