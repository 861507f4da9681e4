/**
 * The pop-up that presents newly awarded badges one at a time: a pager over
 * the list that closes the pop-up after the last one.
 */
module BadgePopup {
  import opened Wrappers

  datatype EarnedBadge = EarnedBadge(id: string, name: string, description: string, icon: string)

  /** What the pop-up renders: the badge, the button text and the optional "i / n" indicator. */
  datatype PopupView = PopupView(badge: EarnedBadge, buttonText: string, indicator: Option<(nat, nat)>)

  /** The button reads "Next Reward" while more badges follow and "Keep Running" on the last. */
  function ButtonLabel(index: nat, count: nat): (s: string)
    ensures s == "Next Reward" <==> index + 1 < count
    ensures s == "Keep Running" <==> index + 1 >= count
  {
    if index < count - 1 then "Next Reward" else "Keep Running"
  }

  class Popup {
    const badges: seq<EarnedBadge>
    var currentIndex: nat

    /** The index points at a badge whenever there is one. */
    predicate Valid()
      reads this
    {
      badges == [] || currentIndex < |badges|
    }

    constructor(badges: seq<EarnedBadge>)
      ensures Valid() && this.badges == badges && currentIndex == 0
    {
      this.badges := badges;
      currentIndex := 0;
    }

    /** `handleNext`: the next badge, or `onClose` (reported as `closed`) at the last one. */
    method HandleNext() returns (closed: bool)
      requires Valid()
      modifies this
      ensures Valid()
      ensures old(currentIndex) + 1 < |badges| ==> !closed && currentIndex == old(currentIndex) + 1
      ensures old(currentIndex) + 1 >= |badges| ==> closed && currentIndex == old(currentIndex)
    {
      if currentIndex < |badges| - 1 {
        currentIndex := currentIndex + 1;
        closed := false;
      } else {
        closed := true;
      }
    }

    /**
     * Nothing is rendered without a current badge (in particular for an
     * empty list); the indicator shows `currentIndex + 1` of `n` only when
     * `n > 1`.
     */
    function View(): (v: Option<PopupView>)
      requires Valid()
      reads this
      ensures v.None? <==> badges == []
      ensures v.Some? ==> v.value.badge == badges[currentIndex]
      ensures v.Some? ==> (v.value.buttonText == "Next Reward" <==> currentIndex + 1 < |badges|)
      ensures v.Some? ==> (v.value.indicator.Some? <==> |badges| > 1)
      ensures v.Some? && v.value.indicator.Some? ==> v.value.indicator.value == (currentIndex + 1, |badges|)
    {
      if currentIndex >= |badges| then None
      else
        Some(PopupView(badges[currentIndex], ButtonLabel(currentIndex, |badges|),
                       if |badges| > 1 then Some((currentIndex + 1, |badges|)) else None))
    }
  }
}
