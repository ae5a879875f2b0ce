/** The landing page's own state: the embedded three-review carousel, the
    embedded FAQ list and the flag that mounts the booking wizard. A wizard
    exists exactly while the flag is set, and each opening mounts a new one. */
module Site {

  import opened Wrappers
  import opened TestimonialsCarousel
  import opened FAQSection
  import opened ServiceCatalog
  import opened BookingCalendar

  /** The page's own list holds three reviews. */
  const PAGE_TESTIMONIALS: nat := 3

  class App {
    var activeFAQ: Option<nat>
    var currentTestimonial: nat
    var showBooking: bool
    var booking: Wizard?

    ghost predicate Valid()
      reads this, booking
    {
      && currentTestimonial < PAGE_TESTIMONIALS
      && (activeFAQ.Some? ==> activeFAQ.value < FAQ_COUNT)
      && (showBooking <==> booking != null)
      && (booking != null ==> booking.Valid())
    }

    /** First review shown, every answer closed, no wizard. */
    constructor()
      ensures Valid()
      ensures activeFAQ == None && currentTestimonial == 0 && !showBooking && booking == null
    {
      activeFAQ := None;
      currentTestimonial := 0;
      showBooking := false;
      booking := null;
    }

    /** `nextTestimonial`. */
    method NextTestimonial()
      requires Valid()
      modifies this
      ensures Valid()
      ensures currentTestimonial == NextIndex(old(currentTestimonial), PAGE_TESTIMONIALS)
      ensures activeFAQ == old(activeFAQ) && showBooking == old(showBooking) && booking == old(booking)
    {
      currentTestimonial := NextIndex(currentTestimonial, PAGE_TESTIMONIALS);
    }

    /** `prevTestimonial`. */
    method PrevTestimonial()
      requires Valid()
      modifies this
      ensures Valid()
      ensures currentTestimonial == PrevIndex(old(currentTestimonial), PAGE_TESTIMONIALS)
      ensures activeFAQ == old(activeFAQ) && showBooking == old(showBooking) && booking == old(booking)
    {
      currentTestimonial := PrevIndex(currentTestimonial, PAGE_TESTIMONIALS);
    }

    /** One firing of the page's interval: the same step as the right arrow,
        with no pause. */
    method Tick()
      requires Valid()
      modifies this
      ensures Valid()
      ensures currentTestimonial == NextIndex(old(currentTestimonial), PAGE_TESTIMONIALS)
      ensures activeFAQ == old(activeFAQ) && showBooking == old(showBooking) && booking == old(booking)
    {
      currentTestimonial := NextIndex(currentTestimonial, PAGE_TESTIMONIALS);
    }

    /** A click on the dot of review `index`. */
    method SelectTestimonial(index: nat)
      requires Valid() && index < PAGE_TESTIMONIALS
      modifies this
      ensures Valid()
      ensures currentTestimonial == index
      ensures activeFAQ == old(activeFAQ) && showBooking == old(showBooking) && booking == old(booking)
    {
      currentTestimonial := index;
    }

    /** A click on question `index`. */
    method ToggleFAQ(index: nat)
      requires Valid() && index < FAQ_COUNT
      modifies this
      ensures Valid()
      ensures activeFAQ == Toggled(old(activeFAQ), index)
      ensures currentTestimonial == old(currentTestimonial) && showBooking == old(showBooking) && booking == old(booking)
    {
      activeFAQ := Toggled(activeFAQ, index);
    }

    /** The booking button sets the flag. Setting it when it is already set
        changes nothing; otherwise a new wizard is mounted, in its initial
        state. */
    method OpenBooking()
      requires Valid()
      modifies this
      ensures Valid()
      ensures showBooking
      ensures old(showBooking) ==> booking == old(booking)
      ensures !old(showBooking) ==>
        && fresh(booking)
        && booking.step == 1 && booking.selected == [] && booking.date == None
        && booking.time == None && booking.location == ""
      ensures activeFAQ == old(activeFAQ) && currentTestimonial == old(currentTestimonial)
    {
      if !showBooking {
        booking := new Wizard();
        showBooking := true;
      }
    }

    /** The wizard's `onClose`: the flag is cleared and the wizard, with its
        draft, is gone. */
    method CloseBooking()
      requires Valid()
      modifies this
      ensures Valid()
      ensures !showBooking && booking == null
      ensures activeFAQ == old(activeFAQ) && currentTestimonial == old(currentTestimonial)
    {
      showBooking := false;
      booking := null;
    }

    /** "Confirm" in the mounted wizard: when a zone is chosen the booking
        is handed over and the wizard closes; otherwise nothing happens. */
    method ConfirmBooking() returns (sent: Option<Booking>)
      requires Valid() && showBooking && booking.step == 4
      modifies this
      ensures Valid()
      ensures sent.Some? <==> old(booking.location) != ""
      ensures sent.Some? ==>
        && sent.value.services == old(booking.selected)
        && Some(sent.value.date) == old(booking.date)
        && Some(sent.value.time) == old(booking.time)
        && sent.value.duration == FormatDuration(TotalDuration(old(booking.selected)))
        && ParseDuration(sent.value.duration) == Some(TotalDuration(old(booking.selected)))
        && sent.value.estimatedCost == EstimatedCost(old(booking.selected))
        && sent.value.location == old(booking.location)
      ensures sent.Some? ==> !showBooking && booking == null
      ensures sent.None? ==> showBooking && booking == old(booking)
      ensures activeFAQ == old(activeFAQ) && currentTestimonial == old(currentTestimonial)
    {
      sent := booking.Confirm();
      if sent.Some? {
        CloseBooking();
      }
    }
  }
}
