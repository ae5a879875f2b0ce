/** The booking calendar's schedule data and the pure checks over it: dates
    as ordered keys, the ten hourly start slots, the table of occupied slots,
    the three-way day classification with the calendar tile classes, and
    whether a run of consecutive slots is free. */
module Schedule {

  /** A calendar day. Days compare by year, then month, then day. */
  datatype Date = Date(year: int, month: int, day: int)

  predicate Before(a: Date, b: Date) {
    a.year < b.year
    || (a.year == b.year && a.month < b.month)
    || (a.year == b.year && a.month == b.month && a.day < b.day)
  }

  /** Before is a strict total order on days. */
  lemma BeforeIsStrictTotalOrder(a: Date, b: Date, c: Date)
    ensures !Before(a, a)
    ensures Before(a, b) && Before(b, c) ==> Before(a, c)
    ensures a == b || Before(a, b) || Before(b, a)
    ensures !(Before(a, b) && Before(b, a))
  {
  }

  const TIME_SLOTS: seq<string> := [
    "09:00", "10:00", "11:00", "12:00", "13:00", "14:00", "15:00", "16:00", "17:00", "18:00"
  ]

  /** The fixed table of occupied slots per day. */
  const MOCK_OCCUPIED: map<Date, seq<string>> := map[
    Date(2025, 11, 25) := ["09:00", "10:00", "14:00"],
    Date(2025, 11, 26) := ["11:00", "15:00", "16:00"]
  ]

  /** `MOCK_OCCUPIED[dateKey] || []`. */
  function OccupiedOn(date: Date): seq<string> {
    if date in MOCK_OCCUPIED then MOCK_OCCUPIED[date] else []
  }

  /** The table's second day: 11:00, 15:00 and 16:00 are taken.
      Fixed values arrive as parameters pinned by `requires`, so that the
      verifier does not unfold the table and the slot search on literals. */
  lemma OccupiedOnNovember26(day: Date)
    requires day == Date(2025, 11, 26)
    ensures OccupiedOn(day) == [TIME_SLOTS[2], TIME_SLOTS[6], TIME_SLOTS[7]]
    ensures forall k :: 0 <= k < |TIME_SLOTS| ==> (TIME_SLOTS[k] in OccupiedOn(day) <==> k in {2, 6, 7})
  {
    var occupied := OccupiedOn(day);
    assert occupied == [TIME_SLOTS[2], TIME_SLOTS[6], TIME_SLOTS[7]];
    forall k | 0 <= k < |TIME_SLOTS|
      ensures TIME_SLOTS[k] in occupied <==> k in {2, 6, 7}
    {
      if k !in {2, 6, 7} {
        SlotsDistinct(k, 2);
        SlotsDistinct(k, 6);
        SlotsDistinct(k, 7);
      }
    }
  }

  // ---------------------------------------------------------------------------
  // Day classification

  datatype Availability = Available | Limited | Occupied

  /** The word the tile class is built from. */
  function Label(a: Availability): string {
    match a
    case Available => "available"
    case Limited => "limited"
    case Occupied => "occupied"
  }

  /** Classification by the number of free slots: none left is occupied, at
      most two is limited, more is available. */
  function Classify(remaining: int): Availability {
    if remaining == 0 then Occupied
    else if remaining <= 2 then Limited
    else Available
  }

  /** `getAvailability`: a day missing from the table has every slot free. */
  function GetAvailability(date: Date): Availability {
    Classify(|TIME_SLOTS| - |OccupiedOn(date)|)
  }

  /** How good a class is for the customer: occupied < limited < available. */
  function Rank(a: Availability): nat {
    match a
    case Occupied => 0
    case Limited => 1
    case Available => 2
  }

  /** The class as a function of the number of taken slots, for every count
      a day of ten slots can have. */
  lemma ClassifyByCount(n: nat)
    requires n <= |TIME_SLOTS|
    ensures Classify(|TIME_SLOTS| - n) == Occupied <==> n == 10
    ensures Classify(|TIME_SLOTS| - n) == Limited <==> n == 8 || n == 9
    ensures Classify(|TIME_SLOTS| - n) == Available <==> n <= 7
  {
  }

  /** The same table read on a day: its class follows from how many of its
      slots the table lists as taken. */
  lemma GetAvailabilityByCount(date: Date)
    requires |OccupiedOn(date)| <= |TIME_SLOTS|
    ensures GetAvailability(date) == Occupied <==> |OccupiedOn(date)| == 10
    ensures GetAvailability(date) == Limited <==> |OccupiedOn(date)| == 8 || |OccupiedOn(date)| == 9
    ensures GetAvailability(date) == Available <==> |OccupiedOn(date)| <= 7
  {
    ClassifyByCount(|OccupiedOn(date)|);
  }

  /** More free slots never make a day look worse. */
  lemma ClassifyMonotone(r1: int, r2: int)
    requires 0 <= r1 <= r2
    ensures Rank(Classify(r1)) <= Rank(Classify(r2))
  {
  }

  /** With the shipped table no day has fewer than seven free slots, so every
      day is classed available. */
  lemma EveryDayAvailable(date: Date)
    ensures |OccupiedOn(date)| <= 3
    ensures GetAvailability(date) == Available
  {
    if date in MOCK_OCCUPIED {
      assert date == Date(2025, 11, 25) || date == Date(2025, 11, 26);
    }
  }

  /** `tileDisabled`: a day strictly before today cannot be picked. */
  predicate TileDisabled(date: Date, today: Date) {
    Before(date, today)
  }

  /** `tileClassName`. */
  function TileClassName(date: Date, today: Date): string {
    if Before(date, today) then "calendar-disabled" else "calendar-" + Label(GetAvailability(date))
  }

  /** No availability class is spelled like the disabled class. */
  lemma AvailabilityClassNotDisabled(a: Availability)
    ensures "calendar-" + Label(a) != "calendar-disabled"
  {
    var c := "calendar-" + Label(a);
    assert c[9] == Label(a)[0];
    assert "calendar-disabled"[9] == 'd';
  }

  /** A tile is greyed out exactly when it cannot be picked. */
  lemma TileDisabledIffGreyedOut(date: Date, today: Date)
    ensures TileDisabled(date, today) <==> TileClassName(date, today) == "calendar-disabled"
  {
    AvailabilityClassNotDisabled(GetAvailability(date));
  }

  // ---------------------------------------------------------------------------
  // Consecutive free slots

  /** `Math.ceil(minutes / 60)`: the fewest whole slots covering `minutes`. */
  function SlotsNeeded(minutes: nat): (n: nat)
    ensures 60 * n >= minutes
    ensures n > 0 ==> 60 * (n - 1) < minutes
  {
    (minutes + 59) / 60
  }

  /** `indexOf`: the first position of x in s, or -1. */
  function IndexOf(s: seq<string>, x: string): (r: int)
    ensures -1 <= r < |s|
    ensures r == -1 <==> x !in s
    ensures r >= 0 ==> s[r] == x
  {
    if s == [] then -1
    else if s[0] == x then 0
    else var r := IndexOf(s[1..], x); if r == -1 then -1 else r + 1
  }

  /** The run of `needed` slots of `slots` from position `start` exists and
      none of them is occupied. */
  predicate RunFree(slots: seq<string>, occupied: seq<string>, start: int, needed: nat) {
    forall k :: start <= k < start + needed ==> FreeAt(slots, occupied, k)
  }

  /** Position k is one of the slots and that slot is not occupied. */
  predicate FreeAt(slots: seq<string>, occupied: seq<string>, k: int) {
    0 <= k < |slots| && slots[k] !in occupied
  }

  /** A booking of `duration` minutes can start at `time` on a day with the
      given occupied slots. */
  predicate SlotFits(slots: seq<string>, occupied: seq<string>, time: string, duration: nat) {
    RunFree(slots, occupied, IndexOf(slots, time), SlotsNeeded(duration))
  }

  /** A free run followed by a free slot is a longer free run. */
  lemma RunFreeExtend(slots: seq<string>, occupied: seq<string>, start: int, n: nat)
    requires RunFree(slots, occupied, start, n) && FreeAt(slots, occupied, start + n)
    ensures RunFree(slots, occupied, start, n + 1)
  {
  }

  /** A run containing a missing or occupied slot is not free. */
  lemma RunBlocked(slots: seq<string>, occupied: seq<string>, start: int, i: nat, n: nat)
    requires i < n && !FreeAt(slots, occupied, start + i)
    ensures !RunFree(slots, occupied, start, n)
  {
  }

  /** A non-empty run is free exactly when it lies inside the slots and none
      of the slots it covers is occupied. */
  lemma RunFreeIff(slots: seq<string>, occupied: seq<string>, start: int, needed: nat)
    requires needed > 0
    ensures RunFree(slots, occupied, start, needed) <==>
      0 <= start && start + needed <= |slots| &&
      forall t :: t in slots[start..start + needed] ==> t !in occupied
  {
    if RunFree(slots, occupied, start, needed) {
      assert FreeAt(slots, occupied, start);
      assert FreeAt(slots, occupied, start + needed - 1);
      forall t | t in slots[start..start + needed] ensures t !in occupied {
        var i :| 0 <= i < needed && slots[start..start + needed][i] == t;
        assert slots[start + i] == t && FreeAt(slots, occupied, start + i);
      }
    }
    if 0 <= start && start + needed <= |slots| &&
       (forall t :: t in slots[start..start + needed] ==> t !in occupied) {
      forall k | start <= k < start + needed ensures FreeAt(slots, occupied, k) {
        assert slots[start..start + needed][k - start] == slots[k];
      }
    }
  }

  /** The same check, read as: nothing is booked, or the time is one of the
      slots, the slots the booking needs end by the last slot, and none of
      them is occupied. */
  lemma SlotFitsIff(slots: seq<string>, occupied: seq<string>, time: string, duration: nat)
    ensures SlotFits(slots, occupied, time, duration) <==>
      duration == 0 ||
      (time in slots &&
       IndexOf(slots, time) + SlotsNeeded(duration) <= |slots| &&
       forall t :: t in slots[IndexOf(slots, time)..IndexOf(slots, time) + SlotsNeeded(duration)]
         ==> t !in occupied)
  {
    if duration > 0 {
      RunFreeIff(slots, occupied, IndexOf(slots, time), SlotsNeeded(duration));
    }
  }

  /** A booking whose slots would run past the last start slot is refused. */
  lemma PastClosingRefused(slots: seq<string>, occupied: seq<string>, time: string, duration: nat)
    requires IndexOf(slots, time) + SlotsNeeded(duration) > |slots|
    ensures !SlotFits(slots, occupied, time, duration)
  {
    var start := IndexOf(slots, time);
    var k := if start < 0 then start else |slots|;
    assert start <= k < start + SlotsNeeded(duration) && !FreeAt(slots, occupied, k);
  }

  /** A time that is not one of the slots is refused unless nothing is booked. */
  lemma UnknownTimeRefused(slots: seq<string>, occupied: seq<string>, time: string, duration: nat)
    requires time !in slots && duration > 0
    ensures !SlotFits(slots, occupied, time, duration)
  {
    var start := IndexOf(slots, time);
    assert start <= start < start + SlotsNeeded(duration) && !FreeAt(slots, occupied, start);
  }

  /** With nothing selected every start is accepted. */
  lemma ZeroDurationFits(slots: seq<string>, occupied: seq<string>, time: string)
    ensures SlotFits(slots, occupied, time, 0)
  {
  }

  /** A shorter booking fits wherever a longer one does. */
  lemma ShorterFits(slots: seq<string>, occupied: seq<string>, time: string, shorter: nat, longer: nat)
    requires shorter <= longer && SlotFits(slots, occupied, time, longer)
    ensures SlotFits(slots, occupied, time, shorter)
  {
    var m, n := SlotsNeeded(shorter), SlotsNeeded(longer);
    assert m <= n;
    var start := IndexOf(slots, time);
    assert RunFree(slots, occupied, start, n);
  }

  /** The hour a "HH:MM" label starts with. */
  function LabelHour(t: string): int
    requires |t| >= 2
  {
    ((t[0] as int) - ('0' as int)) * 10 + ((t[1] as int) - ('0' as int))
  }

  /** The slots are the whole hours from 09:00 to 18:00, in order. */
  lemma SlotHours(i: nat)
    requires i < |TIME_SLOTS|
    ensures |TIME_SLOTS[i]| == 5 && LabelHour(TIME_SLOTS[i]) == 9 + i
  {
  }

  /** Two slots at different positions carry different labels. */
  lemma SlotsDistinct(i: nat, j: nat)
    requires i < |TIME_SLOTS| && j < |TIME_SLOTS| && i != j
    ensures TIME_SLOTS[i] != TIME_SLOTS[j]
  {
    SlotHours(i);
    SlotHours(j);
  }

  /** Each slot label occurs once, so IndexOf finds a slot at its own place. */
  lemma SlotPosition(k: nat)
    requires k < |TIME_SLOTS|
    ensures IndexOf(TIME_SLOTS, TIME_SLOTS[k]) == k
  {
    forall j | 0 <= j < k ensures TIME_SLOTS[j] != TIME_SLOTS[k] {
      SlotsDistinct(j, k);
    }
    IndexOfFirst(TIME_SLOTS, TIME_SLOTS[k], k);
  }

  /** The position IndexOf reports is the one where x first occurs. */
  lemma {:induction false} IndexOfFirst(s: seq<string>, x: string, k: nat)
    requires k < |s| && s[k] == x
    requires forall j :: 0 <= j < k ==> s[j] != x
    ensures IndexOf(s, x) == k
  {
    if k > 0 {
      assert s[0] != x;
      IndexOfFirst(s[1..], x, k - 1);
    }
  }

  /** From the last slot only bookings of at most an hour fit, and only
      when that slot is free. */
  lemma LastSlotFits(slots: seq<string>, occupied: seq<string>, time: string, duration: nat)
    requires |slots| > 0 && IndexOf(slots, time) == |slots| - 1
    ensures SlotFits(slots, occupied, time, duration) <==> duration == 0 || (duration <= 60 && time !in occupied)
  {
    var start := |slots| - 1;
    if duration > 60 {
      PastClosingRefused(slots, occupied, time, duration);
    } else if duration > 0 {
      assert SlotsNeeded(duration) == 1;
      if time in occupied {
        assert !FreeAt(slots, occupied, start);
      } else {
        assert FreeAt(slots, occupied, start);
      }
    }
  }

  /** A booking of at most an hour fits wherever its one slot is free. */
  lemma OneSlotFree(slots: seq<string>, occupied: seq<string>, time: string, duration: nat)
    requires 0 <= IndexOf(slots, time) && duration <= 60
    requires slots[IndexOf(slots, time)] !in occupied
    ensures SlotFits(slots, occupied, time, duration)
  {
    assert FreeAt(slots, occupied, IndexOf(slots, time));
  }

  /** A booking that needs the slot after its start is refused when that
      slot is occupied. */
  lemma SecondSlotTaken(slots: seq<string>, occupied: seq<string>, time: string, duration: nat)
    requires 0 <= IndexOf(slots, time) && SlotsNeeded(duration) >= 2
    requires IndexOf(slots, time) + 1 < |slots| && slots[IndexOf(slots, time) + 1] in occupied
    ensures !SlotFits(slots, occupied, time, duration)
  {
    assert !FreeAt(slots, occupied, IndexOf(slots, time) + 1);
  }

  /** 75 minutes need two slots: a start at 16:00 is refused when 17:00 is
      taken.
      Fixed values arrive as parameters pinned by `requires`, so that the
      verifier does not unfold the table and the slot search on literals. */
  lemma SeventyFiveMinutesAtFour(occupied: seq<string>, time: string)
    requires time == "16:00" && "17:00" in occupied
    ensures !SlotFits(TIME_SLOTS, occupied, time, 75)
  {
    assert IndexOf(TIME_SLOTS, time) == 7 by {
      assert TIME_SLOTS[7] == time;
      SlotPosition(7);
    }
    assert TIME_SLOTS[8] in occupied by {
      assert TIME_SLOTS[8] == "17:00";
    }
    assert SlotsNeeded(75) == 2;
    SecondSlotTaken(TIME_SLOTS, occupied, time, 75);
  }

  /** A start at 09:00 for 75 minutes is accepted when 09:00 and 10:00 are
      free.
      Fixed values arrive as parameters pinned by `requires`, so that the
      verifier does not unfold the table and the slot search on literals. */
  lemma SeventyFiveMinutesAtNine(occupied: seq<string>, time: string)
    requires time == "09:00" && "09:00" !in occupied && "10:00" !in occupied
    ensures SlotFits(TIME_SLOTS, occupied, time, 75)
  {
    var s := TIME_SLOTS;
    assert s[0] == time;
    SlotPosition(0);
    assert SlotsNeeded(75) == 2;
    assert FreeAt(s, occupied, 0) && FreeAt(s, occupied, 1);
  }
}
