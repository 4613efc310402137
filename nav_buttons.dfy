/** The left and right navigation buttons: two independent debouncers. */
module NavButtons {
  import opened CInt
  import opened Debounce

  class NavButtons {
    const left: Button
    const right: Button

    /** The two buttons are distinct objects, so updating one never touches the other. */
    ghost predicate Valid()
    {
      left != right
    }

    /** Initialisation of both buttons from their sampled levels. */
    constructor (leftLevel: Level, rightLevel: Level, now: u32)
      ensures Valid() && fresh(left) && fresh(right)
      ensures left.State() == Init(leftLevel, now)
      ensures right.State() == Init(rightLevel, now)
    {
      left := new Button(leftLevel, now);
      right := new Button(rightLevel, now);
    }

    /** Polls left then right; each button's new state depends only on its own level. */
    method Update(leftLevel: Level, rightLevel: Level, now: u32)
      requires Valid()
      modifies left, right
      ensures left.State() == Poll(old(left.State()), leftLevel, now)
      ensures right.State() == Poll(old(right.State()), rightLevel, now)
    {
      left.Update(leftLevel, now);
      right.Update(rightLevel, now);
    }

    method TakeLeftPressed() returns (v: bool)
      requires Valid()
      modifies left
      ensures Valid() && v == old(left.shortEvent)
      ensures left.State() == old(left.State()).(shortEvent := false)
    {
      v := left.TakeShort();
    }

    method TakeRightPressed() returns (v: bool)
      requires Valid()
      modifies right
      ensures Valid() && v == old(right.shortEvent)
      ensures right.State() == old(right.State()).(shortEvent := false)
    {
      v := right.TakeShort();
    }

    method TakeLeftLongPressed() returns (v: bool)
      requires Valid()
      modifies left
      ensures Valid() && v == old(left.longEvent)
      ensures left.State() == old(left.State()).(longEvent := false)
    {
      v := left.TakeLong();
    }

    method TakeRightLongPressed() returns (v: bool)
      requires Valid()
      modifies right
      ensures Valid() && v == old(right.longEvent)
      ensures right.State() == old(right.State()).(longEvent := false)
    {
      v := right.TakeLong();
    }

    function IsLeftDown(): (d: bool)
      reads left
      ensures d <==> left.State().lastStable == Low
    {
      left.IsDown()
    }

    function IsRightDown(): (d: bool)
      reads right
      ensures d <==> right.State().lastStable == Low
    {
      right.IsDown()
    }
  }

  /** Two presses that complete before anyone takes the event coalesce into one:
      the first take reports true, the second false. */
  method CoalescedPresses(nav: NavButtons) returns (first: bool, second: bool)
    requires nav.Valid() && nav.left.State() == Init(High, 1000) && nav.right.State() == Init(High, 1000)
    modifies nav.left, nav.right
    ensures first && !second
  {
    var times := [2000, 2031, 2100, 2131, 2200, 2231, 2300, 2331];
    var levels := [Low, Low, High, High, Low, Low, High, High];
    nav.Update(levels[0], High, times[0]);
    nav.Update(levels[1], High, times[1]);
    nav.Update(levels[2], High, times[2]);
    nav.Update(levels[3], High, times[3]);
    assert nav.left.shortEvent;
    nav.Update(levels[4], High, times[4]);
    nav.Update(levels[5], High, times[5]);
    nav.Update(levels[6], High, times[6]);
    nav.Update(levels[7], High, times[7]);
    first := nav.TakeLeftPressed();
    second := nav.TakeLeftPressed();
  }
}
