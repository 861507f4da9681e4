/**
 * A post card of the feed: the like and wave buttons each toggle the
 * viewer's reaction and move the shown counter with it.
 */
module FeedPage {
  import opened Wrappers

  /** A reaction as shown: whether the viewer gave it, and the counter. */
  datatype Reaction = Reaction(on: bool, count: int)

  /** One press: flip the flag, take one off the counter if it was on, else add one. */
  function Toggle(r: Reaction): (t: Reaction)
    ensures t.on == !r.on
    ensures t.count == r.count + (if r.on then -1 else 1)
  {
    Reaction(!r.on, if r.on then r.count - 1 else r.count + 1)
  }

  /** The counter without the viewer's own reaction. */
  function Others(r: Reaction): int { r.count - (if r.on then 1 else 0) }

  /** A press changes only the viewer's part of the counter. */
  lemma ToggleKeepsOthers(r: Reaction)
    ensures Others(Toggle(r)) == Others(r)
  {
  }

  /** Two presses restore the reaction. */
  lemma ToggleTwice(r: Reaction)
    ensures Toggle(Toggle(r)) == r
  {
  }

  class PostCard {
    var liked: bool
    var likeCount: int
    var waved: bool
    var waveCount: int
    /** Which button shows its ripple; cleared by a timer 600 ms later. */
    var rippleId: Option<string>

    function Like(): Reaction reads this { Reaction(liked, likeCount) }
    function Wave(): Reaction reads this { Reaction(waved, waveCount) }

    /** The card starts from the post's own flags and counters. */
    constructor(liked: bool, likes: int, waved: bool, waves: int)
      ensures Like() == Reaction(liked, likes) && Wave() == Reaction(waved, waves) && rippleId.None?
    {
      this.liked := liked;
      likeCount := likes;
      this.waved := waved;
      waveCount := waves;
      rippleId := None;
    }

    /** `handleLike`: toggles the like; the wave is untouched. */
    method HandleLike()
      modifies this
      ensures Like() == Toggle(old(Like()))
      ensures Wave() == old(Wave())
      ensures rippleId == Some("like")
    {
      likeCount := if liked then likeCount - 1 else likeCount + 1;
      liked := !liked;
      rippleId := Some("like");
    }

    /** `handleWave`: toggles the wave; the like is untouched. */
    method HandleWave()
      modifies this
      ensures Wave() == Toggle(old(Wave()))
      ensures Like() == old(Like())
      ensures rippleId == Some("wave")
    {
      waveCount := if waved then waveCount - 1 else waveCount + 1;
      waved := !waved;
      rippleId := Some("wave");
    }

    /** The timer set by either handler. */
    method ClearRipple()
      modifies this
      ensures rippleId.None? && Like() == old(Like()) && Wave() == old(Wave())
    {
      rippleId := None;
    }
  }
}
