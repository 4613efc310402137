/** The rotary encoder: a quadrature decoder on the CLK/DT phases, filtered by
    a minimum time between accepted edges, plus the debounced push switch. */
module RotaryEncoder {
  import opened CInt
  import opened Debounce

  /** Minimum time between two accepted CLK edges, in microseconds. */
  const EncDebounceUs: u32 := 800

  /** The decoder's state; deltaAccum counts net steps since the last read. */
  datatype EncState = EncState(lastClk: Level, lastDt: Level, deltaAccum: int, lastEncUs: u32)

  /** The step an accepted CLK edge contributes: +1 when DT differs from the new CLK level, else -1. */
  function EdgeStep(clk: Level, dt: Level): (d: int)
    ensures d == 1 || d == -1
    ensures d == 1 <==> dt != clk
  {
    if dt != clk then 1 else -1
  }

  /** One poll of both phases at time nowUs. */
  function EncPoll(e: EncState, clk: Level, dt: Level, nowUs: u32): EncState
  {
    if Elapsed(nowUs, e.lastEncUs) < EncDebounceUs then
      e.(lastClk := clk, lastDt := dt)
    else if clk != e.lastClk then
      EncState(clk, dt, e.deltaAccum + EdgeStep(clk, dt), nowUs)
    else
      e.(lastClk := clk, lastDt := dt)
  }

  /** Inside the dead time an edge is ignored, but the phase levels are still tracked. */
  lemma BounceIsIgnored(e: EncState, clk: Level, dt: Level, nowUs: u32)
    requires Elapsed(nowUs, e.lastEncUs) < EncDebounceUs
    ensures var t := EncPoll(e, clk, dt, nowUs);
      t.deltaAccum == e.deltaAccum && t.lastEncUs == e.lastEncUs && t.lastClk == clk && t.lastDt == dt
  {
  }

  /** The accumulator moves iff an edge is accepted, by exactly one step whose sign
      comes from DT, and the acceptance time is recorded. */
  lemma AcceptedEdgeStepsByOne(e: EncState, clk: Level, dt: Level, nowUs: u32)
    ensures var t := EncPoll(e, clk, dt, nowUs);
      var accepted := Elapsed(nowUs, e.lastEncUs) >= EncDebounceUs && clk != e.lastClk;
      && (accepted ==> t.deltaAccum == e.deltaAccum + EdgeStep(clk, dt) && t.lastEncUs == nowUs)
      && (!accepted ==> t.deltaAccum == e.deltaAccum && t.lastEncUs == e.lastEncUs)
      && t.lastClk == clk && t.lastDt == dt
  {
  }

  /** One tick of phase samples. */
  datatype PhaseSample = PhaseSample(clk: Level, dt: Level, nowUs: u32)

  function EncRun(e: EncState, ins: seq<PhaseSample>): EncState
    decreases |ins|
  {
    if ins == [] then e
    else
      var last := ins[|ins| - 1];
      EncPoll(EncRun(e, ins[..|ins| - 1]), last.clk, last.dt, last.nowUs)
  }

  /** The filter bounds the step rate: over samples taken at non-decreasing times
      (no clock wrap), every accepted step costs at least EncDebounceUs of time. */
  lemma {:induction false} StepRateIsBounded(e: EncState, ins: seq<PhaseSample>)
    requires forall i :: 0 <= i < |ins| ==> e.lastEncUs <= ins[i].nowUs
    requires forall i, j :: 0 <= i < j < |ins| ==> ins[i].nowUs <= ins[j].nowUs
    ensures var t := EncRun(e, ins);
      && e.lastEncUs <= t.lastEncUs
      && EncDebounceUs * Abs(t.deltaAccum - e.deltaAccum) <= t.lastEncUs - e.lastEncUs
    ensures |ins| > 0 ==> EncRun(e, ins).lastEncUs <= ins[|ins| - 1].nowUs
  {
    if ins != [] {
      var p := ins[..|ins| - 1];
      var last := ins[|ins| - 1];
      StepRateIsBounded(e, p);
      var m := EncRun(e, p);
      assert m.lastEncUs <= last.nowUs by {
        if |p| > 0 {
          assert m.lastEncUs <= p[|p| - 1].nowUs && p[|p| - 1] == ins[|p| - 1];
        }
      }
      AcceptedEdgeStepsByOne(m, last.clk, last.dt, last.nowUs);
    }
  }

  /** The encoder module: decoder fields plus the push switch's debouncer. */
  class Encoder {
    var lastClk: Level
    var lastDt: Level
    var deltaAccum: int
    var lastEncUs: u32
    const btn: Button

    function EncoderState(): EncState
      reads this
    {
      EncState(lastClk, lastDt, deltaAccum, lastEncUs)
    }

    /** Captures both phases and the switch level; the accumulator starts at zero. */
    constructor (clk: Level, dt: Level, sw: Level, nowUs: u32, nowMs: u32)
      ensures EncoderState() == EncState(clk, dt, 0, nowUs)
      ensures fresh(btn) && btn.State() == Init(sw, nowMs)
    {
      lastClk := clk;
      lastDt := dt;
      deltaAccum := 0;
      lastEncUs := nowUs;
      btn := new Button(sw, nowMs);
    }

    /** One decoder poll. */
    method UpdateEncoder(clk: Level, dt: Level, nowUs: u32)
      modifies this
      ensures EncoderState() == EncPoll(old(EncoderState()), clk, dt, nowUs)
    {
      if Elapsed(nowUs, lastEncUs) < EncDebounceUs {
        lastClk := clk;
        lastDt := dt;
        return;
      }
      if clk != lastClk {
        lastEncUs := nowUs;
        if dt != clk {
          deltaAccum := deltaAccum + 1;
        } else {
          deltaAccum := deltaAccum - 1;
        }
      }
      lastClk := clk;
      lastDt := dt;
    }

    /** One tick: the decoder, then the switch. */
    method Update(clk: Level, dt: Level, sw: Level, nowUs: u32, nowMs: u32)
      modifies this, btn
      ensures EncoderState() == EncPoll(old(EncoderState()), clk, dt, nowUs)
      ensures btn.State() == Poll(old(btn.State()), sw, nowMs)
    {
      UpdateEncoder(clk, dt, nowUs);
      btn.Update(sw, nowMs);
    }

    /** Returns the steps accumulated since the last call and resets the accumulator. */
    method TakeDelta() returns (d: int)
      modifies this
      ensures d == old(deltaAccum)
      ensures EncoderState() == old(EncoderState()).(deltaAccum := 0)
    {
      d := deltaAccum;
      deltaAccum := 0;
    }

    method TakeButtonPressed() returns (v: bool)
      modifies btn
      ensures v == old(btn.shortEvent)
      ensures btn.State() == old(btn.State()).(shortEvent := false)
    {
      v := btn.TakeShort();
    }

    method TakeButtonLongPressed() returns (v: bool)
      modifies btn
      ensures v == old(btn.longEvent)
      ensures btn.State() == old(btn.State()).(longEvent := false)
    {
      v := btn.TakeLong();
    }

    function IsButtonDown(): (d: bool)
      reads btn
      ensures d <==> btn.State().lastStable == Low
    {
      btn.IsDown()
    }
  }
}
