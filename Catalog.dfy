/** The fixed service catalog of the booking wizard and the pure computations
    over a selection of service ids: total duration, estimated cost, the
    duration label, and the toggle that edits the selection. */
module ServiceCatalog {

  import opened Wrappers
  import opened Decimal

  /** A catalog entry: duration in minutes, price range in lei. */
  datatype Service = Service(id: string, name: string, duration: nat, low: nat, high: nat)

  const SERVICES: seq<Service> := [
    Service("canapea-2L", "Canapea 2 locuri", 45, 140, 170),
    Service("canapea-3L", "Canapea 3 locuri", 60, 200, 250),
    Service("saltea-single", "Saltea single", 45, 130, 170),
    Service("saltea-matrimon", "Saltea matrimonială", 60, 170, 230),
    Service("auto-interior", "Interior Auto Complet", 120, 350, 500),
    Service("calorifere", "Calorifere (4 buc)", 30, 100, 160),
    Service("baie", "Igienizare Baie", 90, 150, 250)
  ]

  /** The `price` text of an entry, as the catalog writes it: "low-high". */
  function PriceText(service: Service): string {
    NatToString(service.low) + "-" + NatToString(service.high)
  }

  /** The first entry of `services` whose id is `id` (Array.prototype.find). */
  function FindIn(services: seq<Service>, id: string): (r: Option<Service>)
  {
    if services == [] then None
    else if services[0].id == id then Some(services[0])
    else FindIn(services[1..], id)
  }

  function Find(id: string): Option<Service> {
    FindIn(SERVICES, id)
  }

  // ---------------------------------------------------------------------------
  // Sums over a selection

  /** Sum of w over the ids of s, in order (the source's `reduce` from 0). */
  function SumOver(s: seq<string>, w: string -> nat): nat {
    if s == [] then 0 else w(s[0]) + SumOver(s[1..], w)
  }

  lemma {:induction false} SumOverAppend(a: seq<string>, b: seq<string>, w: string -> nat)
    ensures SumOver(a + b, w) == SumOver(a, w) + SumOver(b, w)
    decreases |a|
  {
    if a == [] {
      assert a + b == b;
    } else {
      assert (a + b)[1..] == a[1..] + b;
      SumOverAppend(a[1..], b, w);
    }
  }

  lemma SumOverRemoveAt(b: seq<string>, k: nat, w: string -> nat)
    requires k < |b|
    ensures SumOver(b, w) == SumOver(b[..k] + b[k + 1..], w) + w(b[k])
  {
    assert b == b[..k] + [b[k]] + b[k + 1..];
    SumOverAppend(b[..k] + [b[k]], b[k + 1..], w);
    SumOverAppend(b[..k], [b[k]], w);
    SumOverAppend(b[..k], b[k + 1..], w);
  }

  /** Taking out the element at k takes one copy of it out of the multiset. */
  lemma MultisetRemoveAt(b: seq<string>, k: nat)
    requires k < |b|
    ensures multiset(b[..k] + b[k + 1..]) == multiset(b) - multiset{b[k]}
  {
    assert b == b[..k] + [b[k]] + b[k + 1..];
    assert multiset(b) == multiset(b[..k]) + multiset{b[k]} + multiset(b[k + 1..]);
  }

  /** The order of the selection does not matter to a sum over it. */
  lemma {:induction false} SumOverPermutation(a: seq<string>, b: seq<string>, w: string -> nat)
    requires multiset(a) == multiset(b)
    ensures SumOver(a, w) == SumOver(b, w)
    decreases |a|
  {
    if a == [] {
      assert |b| == |multiset(b)| == 0;
    } else {
      var x := a[0];
      assert x in multiset(b);
      var k :| 0 <= k < |b| && b[k] == x;
      var rest := b[..k] + b[k + 1..];
      MultisetRemoveAt(b, k);
      assert a == [x] + a[1..];
      assert multiset(a) == multiset{x} + multiset(a[1..]);
      SumOverPermutation(a[1..], rest, w);
      SumOverRemoveAt(b, k, w);
    }
  }

  /** Every catalog duration of the selected ids, added up; an id outside the
      catalog contributes 0. */
  function DurationOf(id: string): nat {
    match Find(id)
    case Some(service) => service.duration
    case None => 0
  }

  function TotalDuration(selected: seq<string>): nat {
    SumOver(selected, DurationOf)
  }

  // ---------------------------------------------------------------------------
  // Estimated cost: the low bound of each price range

  /** The text before the first '-' (the first piece of `split('-')`). */
  function BeforeDash(s: string): (r: string)
    ensures r <= s && '-' !in r
    ensures |r| < |s| ==> s[|r|] == '-'
  {
    if s == [] || s[0] == '-' then [] else [s[0]] + BeforeDash(s[1..])
  }

  lemma {:induction false} BeforeDashOfRange(low: string, rest: string)
    requires '-' !in low
    ensures BeforeDash(low + "-" + rest) == low
    decreases |low|
  {
    if low == [] {
      assert (low + "-" + rest)[0] == '-';
    } else {
      assert (low + "-" + rest)[1..] == low[1..] + "-" + rest;
      BeforeDashOfRange(low[1..], rest);
    }
  }

  /** `parseInt(price.split('-')[0])`; None stands for NaN. */
  function LowPrice(price: string): Option<nat> {
    ParseInt(BeforeDash(price))
  }

  /** The low bound is read back from any "low-high" range the catalog could
      hold. */
  lemma LowPriceOfRange(low: nat, high: string)
    ensures LowPrice(NatToString(low) + "-" + high) == Some(low)
  {
    assert '-' !in NatToString(low) by {
      forall i | 0 <= i < |NatToString(low)| ensures NatToString(low)[i] != '-' {
        assert IsDigit(NatToString(low)[i]);
      }
    }
    BeforeDashOfRange(NatToString(low), high);
    ParseIntOfNatToString(low, []);
    assert NatToString(low) + [] == NatToString(low);
  }

  /** What one selected id adds to the estimate: 0 outside the catalog. */
  function CostOf(id: string): Option<nat> {
    match Find(id)
    case Some(service) => LowPrice(PriceText(service))
    case None => Some(0)
  }

  function AddCosts(a: Option<nat>, b: Option<nat>): Option<nat> {
    if a.Some? && b.Some? then Some(a.value + b.value) else None
  }

  /** The `reduce` behind estimatedCost: NaN anywhere makes the sum NaN. */
  function EstimatedCost(selected: seq<string>): Option<nat> {
    if selected == [] then Some(0) else AddCosts(CostOf(selected[0]), EstimatedCost(selected[1..]))
  }

  /** What each selected id adds to the estimate: the low bound of its range
      for a catalog id, 0 for any other. */
  lemma CostOfIsLowBound(id: string)
    ensures Find(id).Some? ==> CostOf(id) == Some(Find(id).value.low)
    ensures Find(id).None? ==> CostOf(id) == Some(0)
  {
    if Find(id).Some? {
      LowPriceOfRange(Find(id).value.low, NatToString(Find(id).value.high));
    }
  }

  function LowPriceOf(id: string): nat {
    match CostOf(id)
    case Some(v) => v
    case None => 0
  }

  /** estimatedCost is never NaN and equals the sum of the low bounds. */
  lemma {:induction false} EstimatedCostIsSum(selected: seq<string>)
    ensures EstimatedCost(selected) == Some(SumOver(selected, LowPriceOf))
    decreases |selected|
  {
    if selected != [] {
      var id := selected[0];
      assert CostOf(id) == Some(LowPriceOf(id)) by {
        CostOfIsLowBound(id);
      }
      EstimatedCostIsSum(selected[1..]);
    }
  }

  // ---------------------------------------------------------------------------
  // Duration label

  /** `formatDuration`: "<m>min" under an hour, else "<h>h <r>min", or "<h>h "
      on a whole hour. */
  function FormatDuration(mins: nat): string {
    var hours := mins / 60;
    var minutes := mins % 60;
    if hours > 0 then
      NatToString(hours) + "h " + (if minutes > 0 then NatToString(minutes) + "min" else "")
    else
      NatToString(minutes) + "min"
  }

  /** Reads "<m>min" back into m minutes. */
  function ParseMinutes(s: string): Option<nat> {
    var md := LeadingDigits(s);
    if md != [] && s[|md|..] == "min" then Some(DigitsValue(md)) else None
  }

  /** Reads a duration label back into minutes. */
  function ParseDuration(s: string): Option<nat> {
    var hd := LeadingDigits(s);
    var rest := s[|hd|..];
    if hd == [] then None
    else if rest == "min" then Some(DigitsValue(hd))
    else if rest == "h " then Some(60 * DigitsValue(hd))
    else if |rest| > 2 && rest[..2] == "h " then
      match ParseMinutes(rest[2..])
      case Some(m) => Some(60 * DigitsValue(hd) + m)
      case None => None
    else None
  }

  lemma ParseMinutesLabel(minutes: nat)
    ensures ParseMinutes(NatToString(minutes) + "min") == Some(minutes)
  {
    var m := NatToString(minutes);
    NatToStringValue(minutes);
    LeadingDigitsOfAppend(m, "min");
    assert (m + "min")[|m|..] == "min";
  }

  /** The label of a duration under an hour. */
  lemma ParseShortLabel(minutes: nat)
    ensures ParseDuration(NatToString(minutes) + "min") == Some(minutes)
  {
    var m := NatToString(minutes);
    NatToStringValue(minutes);
    LeadingDigitsOfAppend(m, "min");
    assert (m + "min")[|m|..] == "min";
  }

  lemma ParseWholeHoursLabel(hours: nat)
    ensures ParseDuration(NatToString(hours) + "h ") == Some(60 * hours)
  {
    var h := NatToString(hours);
    NatToStringValue(hours);
    LeadingDigitsOfAppend(h, "h ");
    assert (h + "h ")[|h|..] == "h ";
  }

  lemma ParseHoursThenMinutes(s: string, hd: string, tail: string, minutes: nat)
    requires LeadingDigits(s) == hd && hd != []
    requires s[|hd|..] == "h " + tail && ParseMinutes(tail) == Some(minutes)
    ensures ParseDuration(s) == Some(60 * DigitsValue(hd) + minutes)
  {
    var rest := s[|hd|..];
    assert rest[0] == 'h' && rest[..2] == "h " && rest[2..] == tail;
  }

  lemma ParseHoursMinutesLabel(hours: nat, minutes: nat)
    ensures ParseDuration(NatToString(hours) + "h " + (NatToString(minutes) + "min"))
         == Some(60 * hours + minutes)
  {
    var h, tail := NatToString(hours), NatToString(minutes) + "min";
    var s := h + "h " + tail;
    assert LeadingDigits(s) == h by {
      assert s == h + ("h " + tail);
      LeadingDigitsOfAppend(h, "h " + tail);
    }
    assert s[|h|..] == "h " + tail;
    assert ParseMinutes(tail) == Some(minutes) by {
      ParseMinutesLabel(minutes);
    }
    assert DigitsValue(h) == hours by {
      NatToStringValue(hours);
    }
    ParseHoursThenMinutes(s, h, tail, minutes);
  }

  /** Every label formatDuration prints names the minutes it was given. */
  lemma FormatDurationRoundTrip(mins: nat)
    ensures ParseDuration(FormatDuration(mins)) == Some(mins)
  {
    var hours, minutes := mins / 60, mins % 60;
    assert mins == 60 * hours + minutes;
    if hours > 0 && minutes > 0 {
      ParseHoursMinutesLabel(hours, minutes);
    } else if hours > 0 {
      assert FormatDuration(mins) == NatToString(hours) + "h ";
      ParseWholeHoursLabel(hours);
    } else {
      ParseShortLabel(minutes);
    }
  }

  /** Two different durations never share a label. */
  lemma FormatDurationInjective(a: nat, b: nat)
    requires FormatDuration(a) == FormatDuration(b)
    ensures a == b
  {
    FormatDurationRoundTrip(a);
    FormatDurationRoundTrip(b);
  }

  // ---------------------------------------------------------------------------
  // Selection toggle

  predicate NoDuplicates(s: seq<string>) {
    forall i, j :: 0 <= i < j < |s| ==> s[i] != s[j]
  }

  /** `prev.filter(id => id !== x)`. */
  function Without(s: seq<string>, x: string): (r: seq<string>)
    ensures forall y :: y in r <==> y in s && y != x
    ensures x in s ==> |r| < |s|
    ensures x !in s ==> r == s
  {
    if s == [] then []
    else if s[0] == x then Without(s[1..], x)
    else [s[0]] + Without(s[1..], x)
  }

  lemma {:induction false} WithoutKeepsNoDuplicates(s: seq<string>, x: string)
    requires NoDuplicates(s)
    ensures NoDuplicates(Without(s, x))
    decreases |s|
  {
    if s != [] {
      WithoutKeepsNoDuplicates(s[1..], x);
      assert s[0] !in s[1..];
    }
  }

  lemma {:induction false} WithoutAppend(a: seq<string>, b: seq<string>, x: string)
    ensures Without(a + b, x) == Without(a, x) + Without(b, x)
    decreases |a|
  {
    if a == [] {
      assert a + b == b;
    } else {
      assert (a + b)[1..] == a[1..] + b;
      WithoutAppend(a[1..], b, x);
    }
  }

  /** A present id is removed; an absent one is appended at the end. */
  function ToggleService(selected: seq<string>, id: string): (r: seq<string>)
    ensures id in r <==> id !in selected
    ensures forall y :: y != id ==> (y in r <==> y in selected)
    ensures id !in selected ==> |r| == |selected| + 1 && r[..|selected|] == selected && r[|selected|] == id
  {
    if id in selected then Without(selected, id) else selected + [id]
  }

  /** Toggling leaves the other ids, in their order, as they were. */
  lemma ToggleKeepsOthersInOrder(selected: seq<string>, id: string)
    ensures Without(ToggleService(selected, id), id) == Without(selected, id)
  {
    if id !in selected {
      WithoutAppend(selected, [id], id);
      assert Without([id], id) == [];
      assert Without(selected, id) + [] == Without(selected, id);
    }
  }

  /** Starting from no duplicates, toggling never creates one. */
  lemma ToggleKeepsNoDuplicates(selected: seq<string>, id: string)
    requires NoDuplicates(selected)
    ensures NoDuplicates(ToggleService(selected, id))
  {
    if id in selected {
      WithoutKeepsNoDuplicates(selected, id);
    }
  }

  /** Adding an absent id and toggling it again restores the selection. */
  lemma ToggleTwiceRestores(selected: seq<string>, id: string)
    requires id !in selected
    ensures ToggleService(ToggleService(selected, id), id) == selected
  {
    ToggleKeepsOthersInOrder(selected, id);
  }

  lemma {:induction false} SumOverWithout(s: seq<string>, x: string, w: string -> nat)
    requires NoDuplicates(s) && x in s
    ensures SumOver(Without(s, x), w) + w(x) == SumOver(s, w)
    decreases |s|
  {
    if s[0] == x {
      assert x !in s[1..];
    } else {
      SumOverWithout(s[1..], x, w);
    }
  }

  lemma SumOverToggle(selected: seq<string>, id: string, w: string -> nat)
    requires NoDuplicates(selected)
    ensures id in selected ==> SumOver(ToggleService(selected, id), w) + w(id) == SumOver(selected, w)
    ensures id !in selected ==> SumOver(ToggleService(selected, id), w) == SumOver(selected, w) + w(id)
  {
    if id in selected {
      SumOverWithout(selected, id, w);
    } else {
      SumOverAppend(selected, [id], w);
    }
  }

  /** Toggling a service moves the total duration by exactly its duration. */
  lemma TotalDurationToggle(selected: seq<string>, id: string)
    requires NoDuplicates(selected)
    ensures id in selected ==> TotalDuration(ToggleService(selected, id)) + DurationOf(id) == TotalDuration(selected)
    ensures id !in selected ==> TotalDuration(ToggleService(selected, id)) == TotalDuration(selected) + DurationOf(id)
  {
    SumOverToggle(selected, id, DurationOf);
  }

  /** Toggling a service moves the estimate by exactly its low price. */
  lemma EstimatedCostToggle(selected: seq<string>, id: string)
    requires NoDuplicates(selected)
    ensures EstimatedCost(selected).Some? && EstimatedCost(ToggleService(selected, id)).Some?
    ensures id in selected ==>
      EstimatedCost(ToggleService(selected, id)).value + LowPriceOf(id) == EstimatedCost(selected).value
    ensures id !in selected ==>
      EstimatedCost(ToggleService(selected, id)).value == EstimatedCost(selected).value + LowPriceOf(id)
  {
    EstimatedCostIsSum(selected);
    EstimatedCostIsSum(ToggleService(selected, id));
    SumOverToggle(selected, id, LowPriceOf);
  }

  /** The order in which services were picked changes neither total. */
  lemma TotalsIgnoreOrder(a: seq<string>, b: seq<string>)
    requires multiset(a) == multiset(b)
    ensures TotalDuration(a) == TotalDuration(b)
    ensures EstimatedCost(a) == EstimatedCost(b)
  {
    SumOverPermutation(a, b, DurationOf);
    SumOverPermutation(a, b, LowPriceOf);
    EstimatedCostIsSum(a);
    EstimatedCostIsSum(b);
  }

  /** A single service takes its own duration. */
  lemma SingleSelectionDuration(id: string)
    ensures TotalDuration([id]) == DurationOf(id)
  {
    assert [id][1..] == [];
    assert SumOver([id], DurationOf) == DurationOf(id) + SumOver([], DurationOf);
  }

  /** An id outside the catalog changes neither total. */
  lemma UnknownIdAddsNothing(selected: seq<string>, id: string)
    requires Find(id).None?
    ensures TotalDuration(selected + [id]) == TotalDuration(selected)
    ensures EstimatedCost(selected + [id]) == EstimatedCost(selected)
  {
    SumOverAppend(selected, [id], DurationOf);
    SumOverAppend(selected, [id], LowPriceOf);
    assert [id][1..] == [];
    CostOfIsLowBound(id);
    EstimatedCostIsSum(selected);
    EstimatedCostIsSum(selected + [id]);
  }

  /** The empty selection costs nothing and takes no time. */
  lemma EmptySelectionTotals()
    ensures TotalDuration([]) == 0 && EstimatedCost([]) == Some(0)
  {
  }

  lemma SofaForTwoEntry()
    ensures DurationOf("canapea-2L") == 45 && CostOf("canapea-2L") == Some(140)
  {
    assert Find("canapea-2L") == Some(SERVICES[0]);
    CostOfIsLowBound("canapea-2L");
  }

  lemma RadiatorsEntry()
    ensures DurationOf("calorifere") == 30 && CostOf("calorifere") == Some(100)
  {
    assert Find("calorifere") == Some(SERVICES[5]);
    CostOfIsLowBound("calorifere");
  }

  lemma CarInteriorEntry()
    ensures DurationOf("auto-interior") == 120 && CostOf("auto-interior") == Some(350)
  {
    assert Find("auto-interior") == Some(SERVICES[4]);
    CostOfIsLowBound("auto-interior");
  }

  /** Sofa for two plus radiators: 45 + 30 minutes, 140 + 100 lei. */
  lemma SofaAndRadiatorsTotals()
    ensures TotalDuration(["canapea-2L", "calorifere"]) == 75
    ensures EstimatedCost(["canapea-2L", "calorifere"]) == Some(240)
  {
    var s := ["canapea-2L", "calorifere"];
    SofaForTwoEntry();
    RadiatorsEntry();
    assert s[1..] == ["calorifere"];
    assert s[1..][1..] == [];
  }
}
