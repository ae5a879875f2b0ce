# Booking wizard, testimonial carousel and FAQ accordion of a cleaning-service site

This Dafny project models the client-side logic of a cleaning-service landing page.

- **Booking wizard** (`BookingCalendar.jsx`). The customer goes through four steps:
  - picks services from a fixed catalog of seven;
  - picks a day on a calendar whose tiles are classed by how many of the ten hourly slots are booked in a fixed table;
  - picks a start time, which is offered only when enough consecutive free slots follow it to cover the total duration;
  - picks a zone and confirms.
- **Testimonial carousel** (`TestimonialsCarousel.jsx`). A wrap-around index with arrows, dots, an auto-advance tick and a pause flag.
- **FAQ accordion** (`FAQSection.jsx`). At most one answer is open.
- **Page** (`App.jsx`). It repeats the carousel (three reviews) and the accordion, and owns the flag that mounts and unmounts the wizard.

Modules:

- `Decimal`: how a non-negative integer is printed, and `parseInt` on text that starts with digits.
- `ServiceCatalog`: the catalog and the totals.
  - The total duration and the estimated cost are the sums of the catalog duration and of the low price bound of each selected id.
  - The duration label is read back into minutes.
  - Toggling a service in or out of the selection.
- `Schedule`:
  - days as ordered keys;
  - the time slots and the occupied table;
  - the day classification and the calendar tile classes;
  - the check that a run of slots exists and is free.
- `BookingCalendar`: the class `Wizard`, whose fields are the draft and whose methods are the click handlers. `IsTimeSlotAvailable` is the source's loop with early return, proved equal to the availability predicate.
- `TestimonialsCarousel`, `FAQSection`: the index functions and the classes `Carousel` and `Accordion`.
- `Site`: the class `App`. It holds a `Wizard` reference exactly while the booking flag is set, and every opening mounts a new wizard.

Choices in the model:

- "Today" is a parameter.
- A day is `Date(year, month, day)`, ordered by year, then month, then day.
- A click on a control that exists only at one step is a method that requires that step.
- A click on a disabled button is a call that changes nothing.

Where the documented behaviour and the code differ, the model follows the code:

- The chosen start time is never checked again. Toggling services at step 3 or 4, or going back and picking another day, keeps the recorded time even when it no longer fits (`GrowingSelectionCanStrandTime`).
- The selection can be emptied after step 1, and a booking with no services can still be confirmed.

With the shipped table no day has more than three slots taken, so every day is classed available (`EveryDayAvailable`).

## Model

| member | source | states |
|---|---|---|
| Decimal.ParseIntOfNatToString | src/components/BookingCalendar.jsx:45 | parseInt reads back every non-negative integer as printed, whatever non-digit text follows it |
| ServiceCatalog.LowPriceOfRange | src/components/BookingCalendar.jsx:45 | the text before the first dash of a "low-high" price parses to low |
| ServiceCatalog.CostOfIsLowBound | src/components/BookingCalendar.jsx:43-46 | a catalog id adds the low bound of its price range to the estimate; any other id adds 0 |
| ServiceCatalog.EstimatedCostIsSum | src/components/BookingCalendar.jsx:43-47 | estimatedCost is never NaN, and is the sum over the selection of each id's low bound (0 for unknown ids) |
| ServiceCatalog.UnknownIdAddsNothing | src/components/BookingCalendar.jsx:38-47 | an id outside the catalog changes neither the total duration nor the estimated cost |
| ServiceCatalog.EmptySelectionTotals | src/components/BookingCalendar.jsx:38-47 | the empty selection has duration 0 and estimated cost 0 |
| ServiceCatalog.TotalsIgnoreOrder | src/components/BookingCalendar.jsx:38-47 | two selections holding the same ids in another order have the same duration and cost |
| ServiceCatalog.TotalDurationToggle | src/components/BookingCalendar.jsx:38-41 | toggling an id raises or lowers the total duration by exactly that service's duration |
| ServiceCatalog.EstimatedCostToggle | src/components/BookingCalendar.jsx:43-47 | toggling an id raises or lowers the estimate by exactly that service's low bound |
| ServiceCatalog.SofaForTwoEntry | src/components/BookingCalendar.jsx:12 | canapea-2L takes 45 minutes and adds 140 |
| ServiceCatalog.CarInteriorEntry | src/components/BookingCalendar.jsx:16 | auto-interior takes 120 minutes and adds 350 |
| ServiceCatalog.RadiatorsEntry | src/components/BookingCalendar.jsx:17 | calorifere takes 30 minutes and adds 100 |
| ServiceCatalog.SofaAndRadiatorsTotals | src/components/BookingCalendar.jsx:38-47 | canapea-2L with calorifere: 75 minutes and an estimate of 140 + 100 = 240 |
| ServiceCatalog.FormatDurationRoundTrip | src/components/BookingCalendar.jsx:49-53 | every label formatDuration prints ("<m>min", "<h>h <r>min", "<h>h ") reads back as the minutes it was given |
| ServiceCatalog.FormatDurationInjective | src/components/BookingCalendar.jsx:49-53 | different durations get different labels |
| ServiceCatalog.Without | src/components/BookingCalendar.jsx:58 | the filter keeps exactly the other ids; it shortens a list holding the id and leaves any other list unchanged |
| ServiceCatalog.ToggleService | src/components/BookingCalendar.jsx:55-61 | the toggled id is present afterwards exactly when it was absent before; every other id keeps its membership; an absent id is appended at the end, after the old selection unchanged |
| ServiceCatalog.ToggleKeepsOthersInOrder | src/components/BookingCalendar.jsx:55-61 | apart from the toggled id, the selection holds the same ids in the same order |
| ServiceCatalog.ToggleKeepsNoDuplicates | src/components/BookingCalendar.jsx:55-61 | a selection without duplicates never gains one by toggling |
| ServiceCatalog.ToggleTwiceRestores | src/components/BookingCalendar.jsx:55-61 | adding an absent id and toggling it again gives back the selection |
| Schedule.BeforeIsStrictTotalOrder | src/components/BookingCalendar.jsx:86-90 | the day order used for "before today" is a strict total order |
| Schedule.OccupiedOnNovember26 | src/components/BookingCalendar.jsx:26-29 | on 2025-11-26 exactly the 11:00, 15:00 and 16:00 slots are taken |
| Schedule.EveryDayAvailable | src/components/BookingCalendar.jsx:26-29 | no day in the table has more than three slots taken, so every day is classed available |
| Schedule.ClassifyByCount | src/components/BookingCalendar.jsx:67-75 | with n of the ten slots taken, the class is occupied iff n is 10, limited iff n is 8 or 9, available iff n is at most 7 |
| Schedule.GetAvailabilityByCount | src/components/BookingCalendar.jsx:67-75 | a day is occupied iff 10 slots are taken, limited iff 8 or 9, available iff at most 7 (an absent day counts 0) |
| Schedule.ClassifyMonotone | src/components/BookingCalendar.jsx:72-74 | more free slots never give a worse class |
| Schedule.AvailabilityClassNotDisabled | src/components/BookingCalendar.jsx:83 | no availability class is spelled like the disabled class |
| Schedule.TileDisabledIffGreyedOut | src/components/BookingCalendar.jsx:77-90 | a tile is classed calendar-disabled exactly when it is disabled, i.e. the day is before today |
| Schedule.SlotsNeeded | src/components/BookingCalendar.jsx:98 | Math.ceil(d / 60): the fewest whole hours covering d minutes |
| Schedule.IndexOf | src/components/BookingCalendar.jsx:97 | indexOf is -1 exactly when the time is absent, and otherwise a position holding it |
| Schedule.IndexOfFirst | src/components/BookingCalendar.jsx:97 | indexOf reports the first position holding the time |
| Schedule.SlotHours | src/components/BookingCalendar.jsx:21-23 | slot i is the whole hour 9 + i |
| Schedule.SlotsDistinct | src/components/BookingCalendar.jsx:21-23 | no two slots share a label |
| Schedule.SlotPosition | src/components/BookingCalendar.jsx:21-23 | indexOf finds every slot at its own position |
| Schedule.RunFreeIff | src/components/BookingCalendar.jsx:100-103 | the loop's test over a non-empty run: the run lies inside the slot list and none of its slots is occupied |
| Schedule.SlotFitsIff | src/components/BookingCalendar.jsx:97-104 | a start fits iff nothing is booked, or it is a slot, the needed run ends by the last slot, and no slot of it is occupied |
| Schedule.PastClosingRefused | src/components/BookingCalendar.jsx:101-102 | a run that would go past the last slot is refused (undefined checkTime) |
| Schedule.UnknownTimeRefused | src/components/BookingCalendar.jsx:97-102 | a time that is not a slot (index -1) is refused unless nothing is booked |
| Schedule.ZeroDurationFits | src/components/BookingCalendar.jsx:98-104 | with duration 0 the loop does not run and every start is accepted |
| Schedule.ShorterFits | src/components/BookingCalendar.jsx:98-103 | a shorter booking fits wherever a longer one fits |
| Schedule.LastSlotFits | src/components/BookingCalendar.jsx:100-103 | from the last slot only bookings of at most an hour fit, and only when that slot is free |
| Schedule.OneSlotFree | src/components/BookingCalendar.jsx:100-103 | a booking of at most an hour fits wherever its slot is free |
| Schedule.SecondSlotTaken | src/components/BookingCalendar.jsx:100-103 | a booking needing two or more slots is refused when the slot after its start is taken |
| Schedule.SeventyFiveMinutesAtFour | src/components/BookingCalendar.jsx:92-105 | 75 minutes need two slots, so 16:00 is refused when 17:00 is taken |
| Schedule.SeventyFiveMinutesAtNine | src/components/BookingCalendar.jsx:92-105 | 75 minutes from 09:00 are accepted when 09:00 and 10:00 are free |
| BookingCalendar.SlotAvailableIff | src/components/BookingCalendar.jsx:92-105 | availability: a date is chosen, and either nothing is booked or the run from the time exists and is free on that day |
| BookingCalendar.LastSlotTakesOneHour | src/components/BookingCalendar.jsx:92-105 | 18:00 is offered iff nothing is booked, or the booking is at most an hour and 18:00 is free |
| BookingCalendar.GrowingSelectionCanStrandTime | src/components/BookingCalendar.jsx:55-61 | on 2025-11-26, 14:00 fits calorifere alone; after toggling in auto-interior it no longer fits, and nothing re-checks the recorded time |
| BookingCalendar.Wizard.constructor | src/components/BookingCalendar.jsx:32-36 | a new wizard is at step 1 with no services, no date, no time and an empty zone |
| BookingCalendar.Wizard.ToggleService | src/components/BookingCalendar.jsx:146-149 | a click on a catalog service at any step toggles the id in the selection and changes nothing else; the selection only ever holds catalog ids |
| BookingCalendar.Wizard.ContinueFromServices | src/components/BookingCalendar.jsx:218-219 | step 1 to 2 only with a non-empty selection |
| BookingCalendar.Wizard.PickDate | src/components/BookingCalendar.jsx:236-241 | a click on a day before today is ignored; any other day becomes the date |
| BookingCalendar.Wizard.ContinueFromDate | src/components/BookingCalendar.jsx:270-271 | step 2 to 3 only with a date, so step at least 3 implies a date |
| BookingCalendar.Wizard.IsTimeSlotAvailable | src/components/BookingCalendar.jsx:92-105 | the loop with early return answers exactly the availability predicate |
| BookingCalendar.Wizard.SelectTime | src/components/BookingCalendar.jsx:293-299 | a time button records its time only when that time is available |
| BookingCalendar.Wizard.ContinueFromTime | src/components/BookingCalendar.jsx:322-323 | step 3 to 4 only with a time, so step 4 implies a time |
| BookingCalendar.Wizard.SetLocation | src/components/BookingCalendar.jsx:375-384 | the zone becomes one of the drop-down's options |
| BookingCalendar.Wizard.Back | src/components/BookingCalendar.jsx:264 | Back (also at lines 316 and 390) moves one step back and clears nothing |
| BookingCalendar.Wizard.Confirm | src/components/BookingCalendar.jsx:396-397 | a booking is handed over iff a zone is chosen; its duration label is the formatted total, which reads back as that total, and its cost is the estimate |
| TestimonialsCarousel.NextIndex | src/components/TestimonialsCarousel.jsx:50-52 | next stays in range, moves up by one, and wraps from the last review to the first |
| TestimonialsCarousel.PrevIndex | src/components/TestimonialsCarousel.jsx:54-56 | prev stays in range, moves down by one, and wraps from the first review to the last |
| TestimonialsCarousel.PrevUndoesNext | src/components/TestimonialsCarousel.jsx:50-56 | prev after next gives back the index |
| TestimonialsCarousel.NextUndoesPrev | src/components/TestimonialsCarousel.jsx:50-56 | next after prev gives back the index |
| TestimonialsCarousel.Advance | src/components/TestimonialsCarousel.jsx:51 | any number of next steps stays in range |
| TestimonialsCarousel.AdvanceWithinLap | src/components/TestimonialsCarousel.jsx:51 | up to one lap, k next steps land on i + k, wrapped once past the last review |
| TestimonialsCarousel.FullCycleReturns | src/components/TestimonialsCarousel.jsx:51 | as many next steps as there are reviews (four here, three on the page) return to the start |
| TestimonialsCarousel.Carousel.constructor | src/components/TestimonialsCarousel.jsx:37-38 | the carousel starts at the first review, not paused |
| TestimonialsCarousel.Carousel.Next | src/components/TestimonialsCarousel.jsx:50-52 | the right arrow applies next and leaves the pause flag |
| TestimonialsCarousel.Carousel.Prev | src/components/TestimonialsCarousel.jsx:54-56 | the left arrow applies prev and leaves the pause flag |
| TestimonialsCarousel.Carousel.Tick | src/components/TestimonialsCarousel.jsx:40-48 | a timer tick applies next, and does nothing while paused |
| TestimonialsCarousel.Carousel.SelectDot | src/components/TestimonialsCarousel.jsx:144 | a dot click sets the index to exactly that dot |
| TestimonialsCarousel.Carousel.MouseEnter | src/components/TestimonialsCarousel.jsx:78 | the pointer entering pauses the carousel |
| TestimonialsCarousel.Carousel.MouseLeave | src/components/TestimonialsCarousel.jsx:79 | the pointer leaving resumes it |
| FAQSection.Toggled | src/components/FAQSection.jsx:35-37 | the clicked question is open afterwards exactly when it was not open before; otherwise none is open |
| FAQSection.ToggleOpensOnlyClicked | src/components/FAQSection.jsx:84 | after a click no other answer is rendered, so at most one is open |
| FAQSection.ToggleTwiceFromClosed | src/components/FAQSection.jsx:36 | two clicks on one question from the closed state close everything again |
| FAQSection.ToggleTwice | src/components/FAQSection.jsx:36 | two clicks on one question leave it open iff it was open, and every other answer closed |
| FAQSection.Accordion.constructor | src/components/FAQSection.jsx:33 | initially no answer is open |
| FAQSection.Accordion.Toggle | src/components/FAQSection.jsx:68 | a click on a question applies toggleFAQ |
| Site.App.constructor | src/App.jsx:75-77 | no answer open, first review shown, no wizard |
| Site.App.NextTestimonial | src/App.jsx:125-127 | next over the page's three reviews, wrapping 2 to 0 |
| Site.App.PrevTestimonial | src/App.jsx:129-131 | prev over the page's three reviews, wrapping 0 to 2 |
| Site.App.Tick | src/App.jsx:118-123 | the page's interval is the same step as next, with no pause |
| Site.App.SelectTestimonial | src/App.jsx:743 | a dot click sets the review shown |
| Site.App.ToggleFAQ | src/App.jsx:858 | the page's FAQ click is the same toggle over six questions |
| Site.App.OpenBooking | src/App.jsx:221 | the booking button sets the flag; a wizard not yet shown is mounted new, in its initial state |
| Site.App.CloseBooking | src/App.jsx:272 | onClose clears the flag and drops the wizard with its draft |
| Site.App.ConfirmBooking | src/App.jsx:272 | confirming with a zone hands over the wizard's services, date, time, the formatted total duration (which reads back as that total), their estimate and the zone, and closes the wizard; without a zone nothing changes |

## Left out

- The confirmation message and `window.open` of the WhatsApp link (`BookingCalendar.jsx:107-121`, `App.jsx:133-138`) are I/O. `Wizard.Confirm` returns the booking record, with the duration label and the estimate, instead of the message text.
- `getDateKey` (`toISOString`), `new Date()` and `setHours` are clock and time-zone library calls. A day is an abstract ordered key and today is a parameter. The model therefore does not capture the UTC conversion of `toISOString`, which east of UTC reads a local midnight as the previous day's key.
- The react-calendar widget is a foreign component. Its `minDate` is treated like `tileDisabled`: both refuse the days before today.
- Timer periods (`setInterval` every 5 s) are not modelled: each firing is a `Tick` call.
- The animated counters, the scroll effects, the contact form and the static sections are presentation code or I/O.
- `Decimal.ParseInt` covers text that starts with ASCII digits. It does not cover leading whitespace, signs, or other radixes, because no catalog price uses them.
- `ServiceCatalog.Service` stores the price range as two numbers. The price text is built from them as "low-high", which is exactly how each catalog entry is written.
- The service names, icons and review and question texts are display data, not behaviour.
