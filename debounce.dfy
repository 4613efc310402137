/** The per-button debouncer with short/long press classification. The same
    algorithm drives the two navigation buttons and the encoder's push switch. */
module Debounce {
  import opened CInt

  /** A digital input level. The inputs are pulled up, so a pressed button reads Low. */
  datatype Level = Low | High

  /** The raw level must stay unchanged for strictly more than this many ms. */
  const DebounceMs: u32 := 30
  /** A press held this many ms raises the long event. */
  const LongPressMs: u32 := 700

  /** One input's debouncer state. downMs == 0 doubles as "no press recorded". */
  datatype BtnState = BtnState(
    lastStable: Level,
    lastReading: Level,
    lastChangeMs: u32,
    shortEvent: bool,
    longEvent: bool,
    downMs: u32,
    longFired: bool)

  /** The state after initialisation with the sampled level r at time now. */
  function Init(r: Level, now: u32): (s: BtnState)
    ensures s.lastStable == s.lastReading == r
    ensures !s.shortEvent && !s.longEvent && s.downMs == 0 && !s.longFired
  {
    BtnState(r, r, now, false, false, 0, false)
  }

  /** First phase of a poll: a raw change is recorded and restarts the debounce window. */
  function TrackRaw(s: BtnState, r: Level, now: u32): BtnState
  {
    if r != s.lastReading then s.(lastReading := r, lastChangeMs := now) else s
  }

  /** Second phase: a raw level that has been quiet long enough becomes the stable
      level. A stable press records its time; a stable release raises the short
      event unless the press was unrecorded or already reported as long. */
  function Promote(s: BtnState, now: u32): BtnState
  {
    if Elapsed(now, s.lastChangeMs) > DebounceMs && s.lastStable != s.lastReading then
      if s.lastReading == Low then
        s.(lastStable := Low, downMs := now, longFired := false)
      else
        s.(lastStable := High,
           shortEvent := s.shortEvent || (s.downMs != 0 && !s.longFired),
           downMs := 0, longFired := false)
    else s
  }

  /** Third phase: a recorded press held long enough raises the long event once. */
  function CheckLong(s: BtnState, now: u32): BtnState
  {
    if s.lastStable == Low && s.downMs != 0 && !s.longFired && Elapsed(now, s.downMs) >= LongPressMs then
      s.(longFired := true, longEvent := true)
    else s
  }

  /** One poll of the input: raw level r sampled at time now. */
  function Poll(s: BtnState, r: Level, now: u32): BtnState
  {
    CheckLong(Promote(TrackRaw(s, r, now), now), now)
  }

  /** The state invariant every poll keeps: a released button has no press recorded,
      and the long-fired latch is only set during a recorded press. */
  ghost predicate Inv(s: BtnState)
  {
    && (s.lastStable == High ==> s.downMs == 0 && !s.longFired)
    && (s.longFired ==> s.lastStable == Low && s.downMs != 0)
  }

  lemma InitSatisfiesInv(r: Level, now: u32)
    ensures Inv(Init(r, now))
  {
  }

  lemma PollKeepsInv(s: BtnState, r: Level, now: u32)
    requires Inv(s)
    ensures Inv(Poll(s, r, now))
  {
  }

  /** A raw change records the level and the time, and never promotes in the same poll. */
  lemma RawChangeRestartsWindow(s: BtnState, r: Level, now: u32)
    requires r != s.lastReading
    ensures var t := Poll(s, r, now);
      t.lastReading == r && t.lastChangeMs == now && t.lastStable == s.lastStable
  {
  }

  /** The stable level changes exactly when a raw level that was already seen and
      differs from it has been unchanged for strictly more than DebounceMs. */
  lemma StableChangeNeedsQuietWindow(s: BtnState, r: Level, now: u32)
    ensures var t := Poll(s, r, now);
      t.lastStable != s.lastStable ==>
        r == s.lastReading && Elapsed(now, s.lastChangeMs) > DebounceMs && t.lastStable == r
    ensures r == s.lastReading && s.lastStable != r && Elapsed(now, s.lastChangeMs) > DebounceMs ==>
      Poll(s, r, now).lastStable == r
  {
  }

  /** A stable press records its time, clears the latch and raises nothing. */
  lemma PressRecordsDownTime(s: BtnState, r: Level, now: u32)
    requires s.lastStable == High
    ensures var t := Poll(s, r, now);
      t.lastStable == Low ==>
        t.downMs == now && !t.longFired && t.shortEvent == s.shortEvent && t.longEvent == s.longEvent
  {
  }

  /** A stable release raises the short event exactly when a press was recorded
      and no long event was raised for it; either way the press record is reset. */
  lemma ReleaseRaisesShortIff(s: BtnState, r: Level, now: u32)
    requires s.lastStable == Low
    ensures var t := Poll(s, r, now);
      t.lastStable == High ==>
        && (t.shortEvent <==> s.shortEvent || (s.downMs != 0 && !s.longFired))
        && t.downMs == 0 && !t.longFired && t.longEvent == s.longEvent
  {
  }

  /** The long event is raised exactly by the first poll of a recorded press that is
      at least LongPressMs old, and that poll sets the latch. */
  lemma LongRaisedOncePerPress(s: BtnState, r: Level, now: u32)
    requires Inv(s)
    ensures var t := Poll(s, r, now);
      && (t.longFired && !s.longFired ==>
            t.longEvent && t.lastStable == Low && t.downMs != 0 && Elapsed(now, t.downMs) >= LongPressMs)
      && (t.longEvent && !s.longEvent ==> !s.longFired && t.longFired)
      && (s.longFired && t.lastStable == Low ==> t.longFired)
    ensures var t := Poll(s, r, now);
      t.lastStable == Low && t.downMs != 0 && Elapsed(now, t.downMs) >= LongPressMs ==>
        t.longFired && (!s.longFired ==> t.longEvent)
  {
  }

  /** A poll that starts after the long event of the current press raises no short event. */
  lemma LongSuppressesShort(s: BtnState, r: Level, now: u32)
    requires Inv(s) && s.longFired
    ensures Poll(s, r, now).shortEvent == s.shortEvent
  {
  }

  /** Events are sticky: polling never clears a raised event; only a take does. */
  lemma EventsAreSticky(s: BtnState, r: Level, now: u32)
    ensures s.shortEvent ==> Poll(s, r, now).shortEvent
    ensures s.longEvent ==> Poll(s, r, now).longEvent
  {
  }

  /** One tick of input to a debouncer. */
  datatype Sample = Sample(level: Level, now: u32)

  /** The state after polling each sample in turn. */
  function Run(s: BtnState, ins: seq<Sample>): BtnState
    decreases |ins|
  {
    if ins == [] then s
    else
      var last := ins[|ins| - 1];
      Poll(Run(s, ins[..|ins| - 1]), last.level, last.now)
  }

  /** Short and long are exclusive for one press: once the long event has fired,
      no poll up to and including the one that sees the release raises a short event. */
  lemma {:induction false} LongPressNeverShorts(s: BtnState, ins: seq<Sample>)
    requires Inv(s) && s.longFired && !s.shortEvent
    requires forall j :: 0 <= j < |ins| ==> Run(s, ins[..j]).lastStable == Low
    ensures !Run(s, ins).shortEvent && Inv(Run(s, ins))
    ensures Run(s, ins).lastStable == Low ==> Run(s, ins).longFired
  {
    if ins != [] {
      var p := ins[..|ins| - 1];
      forall j | 0 <= j < |p|
        ensures Run(s, p[..j]).lastStable == Low
      {
        assert p[..j] == ins[..j];
      }
      LongPressNeverShorts(s, p);
      assert Run(s, p).lastStable == Low by {
        assert ins[..|p|] == p;
      }
      var last := ins[|ins| - 1];
      LongSuppressesShort(Run(s, p), last.level, last.now);
      PollKeepsInv(Run(s, p), last.level, last.now);
    }
  }

  /** A press whose stable transition falls on time 0 is indistinguishable from
      "no press recorded": holding it raises no long event and releasing it no short one. */
  lemma PressAtTimeZeroIsLost()
    ensures var t1 := Poll(Init(High, 4294967000), Low, 4294967100);
      var t2 := Poll(t1, Low, 0);
      var t3 := Poll(t2, Low, 5000);
      var t4 := Poll(t3, High, 5100);
      var t5 := Poll(t4, High, 5200);
      && t2.lastStable == Low && t2.downMs == 0
      && t3.lastStable == Low && !t3.longEvent
      && t5.lastStable == High && !t5.shortEvent && !t5.longEvent
  {
  }

  /** A bounce shorter than the debounce window leaves the stable level and the events untouched. */
  lemma GlitchIsRejected()
    ensures var t1 := Poll(Init(High, 1000), Low, 2000);
      var t2 := Poll(t1, Low, 2020);
      var t3 := Poll(t2, High, 2025);
      var t4 := Poll(t3, High, 2100);
      && t1.lastStable == High && t2.lastStable == High && t3.lastStable == High
      && t4.lastStable == High && !t4.shortEvent && !t4.longEvent
  {
  }

  /** A press released before the long threshold yields one short event and no long event. */
  lemma ShortPressScenario()
    ensures var t1 := Poll(Init(High, 1000), Low, 2000);
      var t2 := Poll(t1, Low, 2031);
      var t3 := Poll(t2, Low, 2600);
      var t4 := Poll(t3, High, 2650);
      var t5 := Poll(t4, High, 2681);
      && t2.lastStable == Low && !t3.longEvent
      && t5.lastStable == High && t5.shortEvent && !t5.longEvent
  {
  }

  /** A press held past the long threshold yields one long event and no short event. */
  lemma LongPressScenario()
    ensures var t1 := Poll(Init(High, 1000), Low, 2000);
      var t2 := Poll(t1, Low, 2031);
      var t3 := Poll(t2, Low, 2731);
      var t4 := Poll(t3, High, 3000);
      var t5 := Poll(t4, High, 3031);
      && t2.lastStable == Low && !t2.longEvent
      && t3.longEvent && t3.longFired
      && t5.lastStable == High && !t5.shortEvent && t5.longEvent
  {
  }

  /** One debounced input, updated in place by each poll. */
  class Button {
    var lastStable: Level
    var lastReading: Level
    var lastChangeMs: u32
    var shortEvent: bool
    var longEvent: bool
    var downMs: u32
    var longFired: bool

    function State(): BtnState
      reads this
    {
      BtnState(lastStable, lastReading, lastChangeMs, shortEvent, longEvent, downMs, longFired)
    }

    /** Initialisation with the level r sampled at time now. */
    constructor (r: Level, now: u32)
      ensures State() == Init(r, now)
    {
      lastReading := r;
      lastStable := r;
      lastChangeMs := now;
      shortEvent := false;
      longEvent := false;
      downMs := 0;
      longFired := false;
    }

    /** One poll with raw level r at time now. */
    method Update(r: Level, now: u32)
      modifies this
      ensures State() == Poll(old(State()), r, now)
    {
      if r != lastReading {
        lastReading := r;
        lastChangeMs := now;
      }
      if Elapsed(now, lastChangeMs) > DebounceMs {
        if lastStable != lastReading {
          lastStable := lastReading;
          if lastStable == Low {
            downMs := now;
            longFired := false;
          } else {
            if downMs != 0 && !longFired {
              shortEvent := true;
            }
            downMs := 0;
            longFired := false;
          }
        }
      }
      if lastStable == Low && downMs != 0 && !longFired {
        if Elapsed(now, downMs) >= LongPressMs {
          longFired := true;
          longEvent := true;
        }
      }
    }

    /** Reads and clears the short event. */
    method TakeShort() returns (v: bool)
      modifies this
      ensures v == old(shortEvent)
      ensures State() == old(State()).(shortEvent := false)
    {
      v := shortEvent;
      shortEvent := false;
    }

    /** Reads and clears the long event. */
    method TakeLong() returns (v: bool)
      modifies this
      ensures v == old(longEvent)
      ensures State() == old(State()).(longEvent := false)
    {
      v := longEvent;
      longEvent := false;
    }

    /** Whether the debounced level is "pressed". */
    function IsDown(): (d: bool)
      reads this
      ensures d <==> State().lastStable == Low
    {
      lastStable == Low
    }
  }
}
