/** The FAQ accordion: at most one answer is open, and a click on a question
    opens it or, when it is the open one, closes it. */
module FAQSection {

  import opened Wrappers

  /** How many questions the section lists. */
  const FAQ_COUNT: nat := 6

  /** `activeIndex === index ? null : index`. */
  function Toggled(active: Option<nat>, index: nat): (r: Option<nat>)
    ensures r == Some(index) <==> active != Some(index)
    ensures r == None <==> active == Some(index)
  {
    if active == Some(index) then None else Some(index)
  }

  /** The answer of question `index` is rendered. */
  predicate IsOpen(active: Option<nat>, index: nat) {
    active == Some(index)
  }

  /** After any click exactly the clicked answer is open, or none is. */
  lemma ToggleOpensOnlyClicked(active: Option<nat>, index: nat, other: nat)
    requires other != index
    ensures !IsOpen(Toggled(active, index), other)
    ensures IsOpen(Toggled(active, index), index) <==> !IsOpen(active, index)
  {
  }

  /** Two clicks on the same question from the closed state close it again. */
  lemma ToggleTwiceFromClosed(index: nat)
    ensures Toggled(Toggled(None, index), index) == None
  {
  }

  /** Two clicks on the same question restore any state in which that
      question was closed or open; from another open question the first
      click moves the focus, so they do not restore it. */
  lemma ToggleTwice(active: Option<nat>, index: nat)
    ensures Toggled(Toggled(active, index), index) == (if active == Some(index) then Some(index) else None)
  {
  }

  class Accordion {
    var activeIndex: Option<nat>

    ghost predicate Valid()
      reads this
    {
      activeIndex.Some? ==> activeIndex.value < FAQ_COUNT
    }

    /** Every answer starts closed. */
    constructor()
      ensures Valid()
      ensures activeIndex == None
    {
      activeIndex := None;
    }

    /** `toggleFAQ(index)`: a click on question `index`. */
    method Toggle(index: nat)
      requires Valid() && index < FAQ_COUNT
      modifies this
      ensures Valid()
      ensures activeIndex == Toggled(old(activeIndex), index)
    {
      activeIndex := Toggled(activeIndex, index);
    }
  }
}
