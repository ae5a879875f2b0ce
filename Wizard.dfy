/** The four-step booking wizard: services, date, time, then location and
    confirmation. The draft lives in the fields of one Wizard object and each
    click handler is a method that rewrites them. */
module BookingCalendar {

  import opened Wrappers
  import opened ServiceCatalog
  import opened Schedule

  /** The zones offered by the location drop-down; "" is its placeholder. */
  const LOCATIONS: seq<string> := [
    "", "Târgoviște Centru", "Micro 3", "Micro 11", "Valea Voievozilor", "Altă zonă"
  ]

  /** `isTimeSlotAvailable` as a value: with no date nothing is available;
      otherwise the booking must fit from that time on the chosen day. */
  predicate SlotAvailable(date: Option<Date>, selected: seq<string>, time: string) {
    date.Some? && SlotFits(TIME_SLOTS, OccupiedOn(date.value), time, TotalDuration(selected))
  }

  /** What a confirmed booking carries: the selected services, the day, the
      start, the duration label and the estimated cost (None when a price
      could not be read, which the page would show as NaN). */
  datatype Booking = Booking(
    services: seq<string>,
    date: Date,
    time: string,
    duration: string,
    estimatedCost: Option<nat>,
    location: string)

  /** The availability check spelled out: a date is chosen, and either
      nothing is booked or the time is a slot, the run of slots the booking
      needs ends by the last slot and none of those slots is occupied. */
  lemma SlotAvailableIff(date: Option<Date>, selected: seq<string>, t: string)
    ensures SlotAvailable(date, selected, t) <==>
      date.Some? &&
      (TotalDuration(selected) == 0 ||
       (t in TIME_SLOTS &&
        IndexOf(TIME_SLOTS, t) + SlotsNeeded(TotalDuration(selected)) <= |TIME_SLOTS| &&
        forall s :: s in TIME_SLOTS[IndexOf(TIME_SLOTS, t)..IndexOf(TIME_SLOTS, t) + SlotsNeeded(TotalDuration(selected))]
          ==> s !in OccupiedOn(date.value)))
  {
    if date.Some? {
      SlotFitsIff(TIME_SLOTS, OccupiedOn(date.value), t, TotalDuration(selected));
    }
  }

  /** The 18:00 slot takes bookings of at most an hour, when it is free.
      Fixed values arrive as parameters pinned by `requires`, so that the
      verifier does not unfold the table and the slot search on literals. */
  lemma LastSlotTakesOneHour(date: Date, selected: seq<string>, t: string)
    requires t == "18:00"
    ensures SlotAvailable(Some(date), selected, t) <==>
      TotalDuration(selected) == 0 || (TotalDuration(selected) <= 60 && t !in OccupiedOn(date))
  {
    assert TIME_SLOTS[9] == t;
    SlotPosition(9);
    LastSlotFits(TIME_SLOTS, OccupiedOn(date), t, TotalDuration(selected));
  }

  /** Nothing re-checks the chosen time when the selection changes: on
      26 November 2025 a 30-minute booking fits at 14:00, and adding the
      two-hour car interior makes the same start run into the booked 15:00
      slot, while the Wizard keeps the time it recorded.
      Fixed values arrive as parameters pinned by `requires`, so that the
      verifier does not unfold the table and the slot search on literals. */
  lemma GrowingSelectionCanStrandTime(day: Date, selection: seq<string>, t: string)
    requires day == Date(2025, 11, 26) && selection == ["calorifere"] && t == "14:00"
    ensures SlotAvailable(Some(day), selection, t)
    ensures !SlotAvailable(Some(day), ServiceCatalog.ToggleService(selection, "auto-interior"), t)
  {
    var occupied := OccupiedOn(day);
    OccupiedOnNovember26(day);
    assert TIME_SLOTS[5] == t;
    SlotPosition(5);
    RadiatorsEntry();
    CarInteriorEntry();
    SingleSelectionDuration("calorifere");
    assert t !in occupied;
    OneSlotFree(TIME_SLOTS, occupied, t, 30);
    TotalDurationToggle(selection, "auto-interior");
    var grown := ServiceCatalog.ToggleService(selection, "auto-interior");
    assert SlotsNeeded(TotalDuration(grown)) == 3;
    SecondSlotTaken(TIME_SLOTS, occupied, t, TotalDuration(grown));
  }

  class Wizard {
    var step: nat
    var selected: seq<string>
    var date: Option<Date>
    var time: Option<string>
    var location: string

    /** What every reachable draft satisfies. The selection may be empty at
        any step and the time need not fit the current selection: neither is
        checked again once the user has moved on. */
    ghost predicate Valid()
      reads this
    {
      && 1 <= step <= 4
      && NoDuplicates(selected)
      && (forall x :: x in selected ==> Find(x).Some?)
      && (step >= 3 ==> date.Some?)
      && (step == 4 ==> time.Some?)
      && (time.Some? ==> time.value in TIME_SLOTS)
      && location in LOCATIONS
    }

    /** A freshly mounted wizard. */
    constructor()
      ensures step == 1 && selected == [] && date == None && time == None && location == ""
      ensures Valid()
    {
      step := 1;
      selected := [];
      date := None;
      time := None;
      location := "";
    }

    /** A click on a service card. The panel is shown at every step, and
        its cards are the catalog's services. */
    method ToggleService(id: string)
      requires Valid() && Find(id).Some?
      modifies this
      ensures Valid()
      ensures selected == ServiceCatalog.ToggleService(old(selected), id)
      ensures step == old(step) && date == old(date) && time == old(time) && location == old(location)
    {
      ToggleKeepsNoDuplicates(selected, id);
      selected := ServiceCatalog.ToggleService(selected, id);
    }

    /** "Continue" on step 1: disabled while nothing is selected. */
    method ContinueFromServices()
      requires Valid() && step == 1
      modifies this
      ensures Valid()
      ensures step == if |old(selected)| > 0 then 2 else 1
      ensures selected == old(selected) && date == old(date) && time == old(time) && location == old(location)
    {
      if |selected| > 0 {
        step := 2;
      }
    }

    /** A click on a calendar day. Days before today are disabled tiles and
        ignore the click; any other day becomes the selected date. */
    method PickDate(day: Date, today: Date)
      requires Valid() && step == 2
      modifies this
      ensures Valid()
      ensures date == if TileDisabled(day, today) then old(date) else Some(day)
      ensures step == old(step) && selected == old(selected) && time == old(time) && location == old(location)
    {
      if !TileDisabled(day, today) {
        date := Some(day);
      }
    }

    /** "Continue" on step 2: disabled until a date is selected. */
    method ContinueFromDate()
      requires Valid() && step == 2
      modifies this
      ensures Valid()
      ensures step == if old(date).Some? then 3 else 2
      ensures selected == old(selected) && date == old(date) && time == old(time) && location == old(location)
    {
      if date.Some? {
        step := 3;
      }
    }

    /** `isTimeSlotAvailable`: walks the slots the booking needs, from the
        chosen one, and refuses at the first that is missing or occupied. */
    method IsTimeSlotAvailable(t: string) returns (ok: bool)
      ensures ok <==> SlotAvailable(date, selected, t)
    {
      if date.None? {
        return false;
      }
      var occupied := OccupiedOn(date.value);
      var timeIndex := IndexOf(TIME_SLOTS, t);
      var slotsNeeded := SlotsNeeded(TotalDuration(selected));
      var i := 0;
      while i < slotsNeeded
        invariant 0 <= i <= slotsNeeded
        invariant RunFree(TIME_SLOTS, occupied, timeIndex, i)
      {
        var k := timeIndex + i;
        if k < 0 || k >= |TIME_SLOTS| || TIME_SLOTS[k] in occupied {
          RunBlocked(TIME_SLOTS, occupied, timeIndex, i, slotsNeeded);
          return false;
        }
        RunFreeExtend(TIME_SLOTS, occupied, timeIndex, i);
        i := i + 1;
      }
      return true;
    }

    /** A click on a time button: buttons of unavailable slots are disabled. */
    method SelectTime(t: string)
      requires Valid() && step == 3 && t in TIME_SLOTS
      modifies this
      ensures Valid()
      ensures time == if SlotAvailable(old(date), old(selected), t) then Some(t) else old(time)
      ensures step == old(step) && selected == old(selected) && date == old(date) && location == old(location)
    {
      var available := IsTimeSlotAvailable(t);
      if available {
        time := Some(t);
      }
    }

    /** "Continue" on step 3: disabled until a time is selected. */
    method ContinueFromTime()
      requires Valid() && step == 3
      modifies this
      ensures Valid()
      ensures step == if old(time).Some? then 4 else 3
      ensures selected == old(selected) && date == old(date) && time == old(time) && location == old(location)
    {
      if time.Some? {
        step := 4;
      }
    }

    /** A choice in the zone drop-down. */
    method SetLocation(zone: string)
      requires Valid() && step == 4 && zone in LOCATIONS
      modifies this
      ensures Valid()
      ensures location == zone
      ensures step == old(step) && selected == old(selected) && date == old(date) && time == old(time)
    {
      location := zone;
    }

    /** "Back" on steps 2, 3 and 4: one step back, nothing cleared. */
    method Back()
      requires Valid() && 2 <= step
      modifies this
      ensures Valid()
      ensures step == old(step) - 1
      ensures selected == old(selected) && date == old(date) && time == old(time) && location == old(location)
    {
      step := step - 1;
    }

    /** "Confirm" on step 4: disabled while no zone is chosen; otherwise it
        hands over the booking, whose duration label reads back as the total
        duration and whose cost is the sum of the low price bounds. */
    method Confirm() returns (booking: Option<Booking>)
      requires Valid() && step == 4
      ensures booking.Some? <==> location != ""
      ensures booking.Some? ==>
        && booking.value.services == selected
        && Some(booking.value.date) == date
        && Some(booking.value.time) == time
        && booking.value.duration == FormatDuration(TotalDuration(selected))
        && ParseDuration(booking.value.duration) == Some(TotalDuration(selected))
        && booking.value.estimatedCost == EstimatedCost(selected)
        && booking.value.location == location
    {
      if location == "" {
        return None;
      }
      FormatDurationRoundTrip(TotalDuration(selected));
      booking := Some(Booking(selected, date.value, time.value,
        FormatDuration(TotalDuration(selected)), EstimatedCost(selected), location));
    }
  }
}
