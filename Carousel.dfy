/** The testimonial carousel: an index into a fixed list of reviews that the
    arrows move by one, with wrap-around, that a dot click sets directly and
    that an interval timer advances unless the pointer rests on the
    carousel. */
module TestimonialsCarousel {

  /** How many reviews the carousel shows. */
  const TESTIMONIAL_COUNT: nat := 4

  /** `(prev + 1) % length`: the following review, the first after the last. */
  function NextIndex(i: nat, n: nat): (r: nat)
    requires i < n
    ensures r < n
    ensures r == if i == n - 1 then 0 else i + 1
  {
    (i + 1) % n
  }

  /** `(prev - 1 + length) % length`: the preceding review, the last before
      the first. The dividend is never negative, so the remainder of the
      source agrees with Dafny's. */
  function PrevIndex(i: nat, n: nat): (r: nat)
    requires i < n
    ensures r < n
    ensures r == if i == 0 then n - 1 else i - 1
  {
    (i - 1 + n) % n
  }

  lemma PrevUndoesNext(i: nat, n: nat)
    requires i < n
    ensures PrevIndex(NextIndex(i, n), n) == i
  {
  }

  lemma NextUndoesPrev(i: nat, n: nat)
    requires i < n
    ensures NextIndex(PrevIndex(i, n), n) == i
  {
  }

  /** The index after k presses of the right arrow (or k ticks). */
  function Advance(i: nat, k: nat, n: nat): (r: nat)
    requires i < n
    ensures r < n
  {
    if k == 0 then i else NextIndex(Advance(i, k - 1, n), n)
  }

  /** Up to one lap, k steps forward land on i + k, taken round past the
      last review. */
  lemma {:induction false} AdvanceWithinLap(i: nat, k: nat, n: nat)
    requires i < n && k <= n
    ensures Advance(i, k, n) == if i + k < n then i + k else i + k - n
  {
    if k > 0 {
      AdvanceWithinLap(i, k - 1, n);
    }
  }

  /** As many steps as there are reviews come back to the same review. */
  lemma FullCycleReturns(i: nat, n: nat)
    requires i < n
    ensures Advance(i, n, n) == i
  {
    AdvanceWithinLap(i, n, n);
  }

  class Carousel {
    var currentIndex: nat
    var isPaused: bool

    ghost predicate Valid()
      reads this
    {
      currentIndex < TESTIMONIAL_COUNT
    }

    /** The first review, timer running. */
    constructor()
      ensures Valid()
      ensures currentIndex == 0 && !isPaused
    {
      currentIndex := 0;
      isPaused := false;
    }

    /** The right arrow. */
    method Next()
      requires Valid()
      modifies this
      ensures Valid()
      ensures currentIndex == NextIndex(old(currentIndex), TESTIMONIAL_COUNT)
      ensures isPaused == old(isPaused)
    {
      currentIndex := NextIndex(currentIndex, TESTIMONIAL_COUNT);
    }

    /** The left arrow. */
    method Prev()
      requires Valid()
      modifies this
      ensures Valid()
      ensures currentIndex == PrevIndex(old(currentIndex), TESTIMONIAL_COUNT)
      ensures isPaused == old(isPaused)
    {
      currentIndex := PrevIndex(currentIndex, TESTIMONIAL_COUNT);
    }

    /** One firing of the five-second interval. No interval is registered
        while the carousel is paused, so then nothing moves. */
    method Tick()
      requires Valid()
      modifies this
      ensures Valid()
      ensures currentIndex == if old(isPaused) then old(currentIndex) else NextIndex(old(currentIndex), TESTIMONIAL_COUNT)
      ensures isPaused == old(isPaused)
    {
      if !isPaused {
        currentIndex := NextIndex(currentIndex, TESTIMONIAL_COUNT);
      }
    }

    /** A click on the dot of review `idx`. */
    method SelectDot(idx: nat)
      requires Valid() && idx < TESTIMONIAL_COUNT
      modifies this
      ensures Valid()
      ensures currentIndex == idx && isPaused == old(isPaused)
    {
      currentIndex := idx;
    }

    /** The pointer enters the carousel. */
    method MouseEnter()
      requires Valid()
      modifies this
      ensures Valid()
      ensures isPaused && currentIndex == old(currentIndex)
    {
      isPaused := true;
    }

    /** The pointer leaves the carousel. */
    method MouseLeave()
      requires Valid()
      modifies this
      ensures Valid()
      ensures !isPaused && currentIndex == old(currentIndex)
    {
      isPaused := false;
    }
  }
}
