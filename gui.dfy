/** The GUI component: the static state of the GUI as one object, updated in place
    by guiInit, guiUpdate, guiForceRedraw, guiSetRadioOn and the consume calls, and
    drawing through a trace of operations. */
module Gui {
  import opened CInt
  import opened GuiMath
  import Frequency
  import opened GuiConfig
  import opened GuiModel
  import opened GuiRender
  import opened Debounce
  import RotaryEncoder
  import NavButtons

  /** The inputs one guiUpdate hands to the state machine: the nav presses are
      only taken outside edit mode, everything else is taken on every tick. */
  function TickEvents(edit: bool, left: BtnState, right: BtnState, sw: BtnState,
                      enc: RotaryEncoder.EncState, now: u32): (ev: Events)
  {
    Events(!edit && left.shortEvent, !edit && right.shortEvent, sw.shortEvent, sw.longEvent,
           Wrap32(enc.deltaAccum), now)
  }

  lemma AppendThree<T>(t: seq<T>, a: seq<T>, b: seq<T>, c: seq<T>)
    ensures t + a + b + c == t + (a + b + c)
  {
  }

  class Gui {
    var ui: UiState
    var freqHz: i32
    var modIndex: i32
    var pwrIndex: i32
    var dirtyHeader: bool
    var dirtyValue: bool
    var dirtyFooter: bool
    var toastWasActive: bool
    /** The display operations issued so far. */
    var trace: seq<DrawOp>
    /** The display size getDisplaySize reports. */
    const width: int
    const height: int
    /** The input modules guiUpdate polls. */
    const enc: RotaryEncoder.Encoder
    const nav: NavButtons.NavButtons

    function State(): GuiState
      reads this
    {
      GuiState(ui, freqHz, modIndex, pwrIndex, dirtyHeader, dirtyValue, dirtyFooter, toastWasActive)
    }

    /** The GUI invariant holds and the three debouncers are distinct objects. */
    ghost predicate Valid()
      reads this
    {
      GuiModel.Inv(State()) && nav.left != nav.right && enc.btn != nav.left && enc.btn != nav.right
    }

    /** guiInit: default UI state, start values, limited frequency, then a cleared
        display and a full render. */
    constructor (enc: RotaryEncoder.Encoder, nav: NavButtons.NavButtons, W: int, H: int, now: u32)
      requires nav.left != nav.right && enc.btn != nav.left && enc.btn != nav.right
      ensures Valid() && this.enc == enc && this.nav == nav && width == W && height == H
      ensures State() == Settled(Initial())
      ensures trace == [ClearScreen] + Frame(Initial(), W, H, now)
    {
      this.enc := enc;
      this.nav := nav;
      width := W;
      height := H;
      ui := DefaultUi;
      freqHz := FrqStartHz;
      modIndex := ModPos(ModIndexStart, |ModList|);
      pwrIndex := ModPos(PwrIndexStart, |PwrList|);
      dirtyHeader, dirtyValue, dirtyFooter := true, true, true;
      toastWasActive := false;
      trace := [];
      new;
      LimitFreq();
      trace := [ClearScreen];
      RenderDirty(now);
    }

    /** limitFreq: the frequency is quantised and limited in place. */
    method LimitFreq()
      modifies this
      ensures State() == old(State()).(freqHz := Frequency.LimitFreq(old(freqHz), GuiLimits))
      ensures trace == old(trace)
    {
      GuiLimitsFitGrid();
      freqHz := Frequency.LimitFreq(freqHz, GuiLimits);
    }

    method FocusSet(f: FooterItem)
      modifies this
      ensures State() == GuiModel.FocusSet(old(State()), f) && trace == old(trace)
    {
      ui := ui.(focus := f);
      if ui.focus == FootFrq {
        ui := ui.(screen := Frq);
      } else if ui.focus == FootMod {
        ui := ui.(screen := Mod);
      } else if ui.focus == FootPwr {
        ui := ui.(screen := Pwr);
      }
      ui := ui.(edit := false, cursor := 0);
    }

    method EnterEdit()
      modifies this
      ensures State() == GuiModel.EnterEdit(old(State())) && trace == old(trace)
    {
      ui := ui.(edit := true, cursor := 0);
    }

    method SaveCurrentValue(now: u32)
      modifies this
      ensures State() == GuiModel.SaveCurrentValue(old(State()), now) && trace == old(trace)
    {
      ui := ui.(edit := false, cursor := 0);
      ui := ui.(toastUntil := AddU32(now, ToastMs));
      ui := ui.(saveRequested := true, savedScreen := ui.screen);
    }

    method NextCursorPosition()
      modifies this
      ensures State() == GuiModel.NextCursorPosition(old(State())) && trace == old(trace)
    {
      if ui.screen == Frq {
        ui := ui.(cursor := (ui.cursor + 1) % 6);
      } else {
        ui := ui.(cursor := 0);
      }
    }

    method ChangeValueByDelta(d: i32)
      modifies this
      ensures State() == GuiModel.ChangeValueByDelta(old(State()), d) && trace == old(trace)
    {
      if d == 0 {
        return;
      }
      if ui.screen == Frq {
        freqHz := Wrap32(freqHz + Wrap32(d * Frequency.CursorStepHz(ui.cursor)));
        LimitFreq();
      } else if ui.screen == Mod {
        if |ModList| > 0 {
          modIndex := ModPos(Wrap32(modIndex + d), |ModList|);
        }
      } else if ui.screen == Pwr {
        if |PwrList| > 0 {
          pwrIndex := ModPos(Wrap32(pwrIndex + d), |PwrList|);
        }
      }
    }

    method RenderHeaderArea(now: u32)
      modifies this
      ensures State() == old(State()) && trace == old(trace) + HeaderOps(State(), width, now)
    {
      trace := trace + [Clear(HeaderRect(width))];
      if now < ui.toastUntil {
        var x := CDiv(width - TextW(ToastMessage, ToastSize), 2);
        if x < 6 {
          x := 6;
        }
        trace := trace + [Text(ToastMessage, x, 6, ToastSize, ToastColor)];
      } else {
        trace := trace + [Text(ScreenName(ui.screen), 6, 6, HeaderSize, HeaderText)];
      }
      trace := trace + [Line(0, HeaderH - 1, width - 1, HeaderH - 1, LineColor)];
    }

    method RenderValueArea()
      requires IndicesValid(State())
      modifies this
      ensures State() == old(State()) && trace == old(trace) + ValueOps(State(), width, height)
    {
      trace := trace + [Clear(ValueRect(width, height))];
      match ui.screen
      case Frq => trace := trace + FrqOps(State(), width, height);
      case Mod => trace := trace + ListOps(State(), width, height, ListLabel(ModList, modIndex));
      case Pwr => trace := trace + ListOps(State(), width, height, ListLabel(PwrList, pwrIndex));
    }

    method RenderFooterArea()
      modifies this
      ensures State() == old(State()) && trace == old(trace) + FooterOps(State(), width, height)
    {
      trace := trace + FooterOps(State(), width, height);
    }

    /** renderDirty: each dirty zone is drawn, in order, and its flag cleared. */
    method RenderDirty(now: u32)
      requires IndicesValid(State())
      modifies this
      ensures State() == Settled(old(State()))
      ensures trace == old(trace) + Frame(old(State()), width, height, now)
    {
      ghost var g, t := State(), trace;
      RenderHeaderIfDirty(g, now);
      RenderValueIfDirty(g);
      RenderFooterIfDirty(g);
      AppendThree(t, if g.dirtyHeader then HeaderOps(g, width, now) else [],
        if g.dirtyValue then ValueOps(g, width, height) else [],
        if g.dirtyFooter then FooterOps(g, width, height) else []);
    }

    /** The header step of renderDirty, drawing what the frame's start state g shows. */
    method RenderHeaderIfDirty(ghost g: GuiState, now: u32)
      requires IndicesValid(g) && ui == g.ui && freqHz == g.freqHz && modIndex == g.modIndex && pwrIndex == g.pwrIndex
      modifies this
      ensures State() == old(State()).(dirtyHeader := false)
      ensures trace == old(trace) + (if old(dirtyHeader) then HeaderOps(g, width, now) else [])
    {
      if dirtyHeader {
        ZonesIgnoreDirtyFlags(g, State(), width, height, now);
        RenderHeaderArea(now);
        dirtyHeader := false;
      }
    }

    /** The value step of renderDirty. */
    method RenderValueIfDirty(ghost g: GuiState)
      requires IndicesValid(g) && ui == g.ui && freqHz == g.freqHz && modIndex == g.modIndex && pwrIndex == g.pwrIndex
      modifies this
      ensures State() == old(State()).(dirtyValue := false)
      ensures trace == old(trace) + (if old(dirtyValue) then ValueOps(g, width, height) else [])
    {
      if dirtyValue {
        ValueIgnoresDirtyFlags(g, State(), width, height);
        RenderValueArea();
        dirtyValue := false;
      }
    }

    /** The footer step of renderDirty. */
    method RenderFooterIfDirty(ghost g: GuiState)
      requires IndicesValid(g) && ui == g.ui && freqHz == g.freqHz && modIndex == g.modIndex && pwrIndex == g.pwrIndex
      modifies this
      ensures State() == old(State()).(dirtyFooter := false)
      ensures trace == old(trace) + (if old(dirtyFooter) then FooterOps(g, width, height) else [])
    {
      if dirtyFooter {
        ZonesIgnoreDirtyFlags(g, State(), width, height, 0);
        RenderFooterArea();
        dirtyFooter := false;
      }
    }

    method HandleLeftPress()
      modifies this
      ensures State() == MarkAll(GuiModel.FocusSet(old(State()), FooterLeft(old(ui.focus)))) && trace == old(trace)
    {
      var f := FooterIndex(ui.focus) - 1;
      if f < 0 {
        f := 3;
      }
      FocusSet(FooterAt(f));
      dirtyHeader, dirtyValue, dirtyFooter := true, true, true;
    }

    method HandleRightPress()
      modifies this
      ensures State() == MarkAll(GuiModel.FocusSet(old(State()), FooterRight(old(ui.focus)))) && trace == old(trace)
    {
      var f := FooterIndex(ui.focus) + 1;
      if f > 3 {
        f := 0;
      }
      FocusSet(FooterAt(f));
      dirtyHeader, dirtyValue, dirtyFooter := true, true, true;
    }

    method HandleShortPress()
      modifies this
      ensures State() == ShortStep(old(State()), true) && trace == old(trace)
    {
      if !ui.edit {
        if ui.focus == FootOn {
          ui := ui.(onToggleRequested := true);
        } else {
          EnterEdit();
          dirtyValue := true;
        }
      } else {
        NextCursorPosition();
        dirtyValue := true;
      }
    }

    method HandleRotation(d: i32)
      modifies this
      ensures State() == RotateStep(old(State()), d) && trace == old(trace)
    {
      if d != 0 && ui.edit {
        ChangeValueByDelta(d);
        dirtyValue := true;
      }
    }

    method HandleLongPress(now: u32)
      modifies this
      ensures State() == LongStep(old(State()), true, now) && trace == old(trace)
    {
      if ui.edit {
        SaveCurrentValue(now);
        dirtyHeader := true;
        dirtyValue := true;
      }
    }

    method HandleToast(now: u32)
      modifies this
      ensures State() == ToastStep(old(State()), now) && trace == old(trace)
    {
      var toastActive := now < ui.toastUntil;
      if toastWasActive && !toastActive {
        dirtyHeader := true;
      }
      toastWasActive := toastActive;
    }

    /** The state machine part of guiUpdate for the events of one tick, in the
        order the firmware handles them, followed by rendering what became dirty. */
    method Process(ev: Events)
      requires GuiModel.Inv(State())
      modifies this
      ensures GuiModel.Inv(State())
      ensures State() == Settled(Step(old(State()), ev))
      ensures trace == old(trace) + Frame(Step(old(State()), ev), width, height, ev.now)
    {
      ghost var g0 := State();
      if !ui.edit {
        if ev.left {
          HandleLeftPress();
        }
        if ev.right {
          HandleRightPress();
        }
      }
      ghost var g1 := State();
      assert g1 == NavStep(g0, ev.left, ev.right);
      if ev.short {
        HandleShortPress();
      }
      HandleRotation(ev.delta);
      if ev.long {
        HandleLongPress(ev.now);
      }
      HandleToast(ev.now);
      StepKeepsInv(g0, ev);
      if dirtyHeader || dirtyValue || dirtyFooter {
        RenderDirty(ev.now);
      } else {
        CleanStateDrawsNothing(State(), width, height, ev.now);
      }
    }

    /** guiUpdate: poll the encoder and the nav buttons, take their events (the nav
        presses only outside edit mode) and process them. Taking and handling touch
        disjoint state, so all events are taken before the first is handled. */
    method Update(leftLevel: Level, rightLevel: Level, clk: Level, dt: Level, sw: Level, nowUs: u32, nowMs: u32)
      requires Valid()
      modifies this, enc, enc.btn, nav.left, nav.right
      ensures Valid()
      ensures
        var l := Poll(old(nav.left.State()), leftLevel, nowMs);
        var r := Poll(old(nav.right.State()), rightLevel, nowMs);
        var b := Poll(old(enc.btn.State()), sw, nowMs);
        var e := RotaryEncoder.EncPoll(old(enc.EncoderState()), clk, dt, nowUs);
        var s := Step(old(State()), TickEvents(old(ui.edit), l, r, b, e, nowMs));
        && State() == Settled(s)
        && trace == old(trace) + Frame(s, width, height, nowMs)
        && nav.left.State() == (if old(ui.edit) then l else l.(shortEvent := false))
        && nav.right.State() == (if old(ui.edit) then r else r.(shortEvent := false))
        && enc.btn.State() == b.(shortEvent := false, longEvent := false)
        && enc.EncoderState() == e.(deltaAccum := 0)
    {
      enc.Update(clk, dt, sw, nowUs, nowMs);
      nav.Update(leftLevel, rightLevel, nowMs);
      ghost var ev := TickEvents(ui.edit, nav.left.State(), nav.right.State(), enc.btn.State(),
                                 enc.EncoderState(), nowMs);
      var left, right := false, false;
      if !ui.edit {
        left := nav.TakeLeftPressed();
        right := nav.TakeRightPressed();
      }
      var short := enc.TakeButtonPressed();
      var accum := enc.TakeDelta();
      var long := enc.TakeButtonLongPressed();
      var events := Events(left, right, short, long, Wrap32(accum), nowMs);
      assert events == ev;
      Process(events);
    }

    /** guiForceRedraw: every zone is drawn and left clean. */
    method ForceRedraw(now: u32)
      requires Valid()
      modifies this
      ensures Valid()
      ensures State() == Settled(old(State()))
      ensures trace == old(trace) + Frame(MarkAll(old(State())), width, height, now)
    {
      dirtyHeader, dirtyValue, dirtyFooter := true, true, true;
      RenderDirty(now);
    }

    /** guiSetRadioOn: a change of the radio status dirties the footer; setting the
        same status again changes nothing. */
    method SetRadioOn(on: bool)
      requires Valid()
      modifies this
      ensures Valid() && trace == old(trace)
      ensures old(ui.radioOn) != on ==> State() == old(State()).(ui := old(ui).(radioOn := on), dirtyFooter := true)
      ensures old(ui.radioOn) == on ==> State() == old(State())
    {
      if ui.radioOn != on {
        ui := ui.(radioOn := on);
        dirtyFooter := true;
      }
    }

    /** guiConsumeOnToggleRequested: returns the toggle request and clears it. */
    method ConsumeOnToggleRequested() returns (v: bool)
      requires Valid()
      modifies this
      ensures Valid() && trace == old(trace)
      ensures v == old(ui.onToggleRequested)
      ensures State() == old(State()).(ui := old(ui).(onToggleRequested := false))
    {
      v := ui.onToggleRequested;
      ui := ui.(onToggleRequested := false);
    }

    /** guiConsumeSaveRequested: when a save is pending, clears it and reports the
        saved screen; otherwise returns false and leaves the caller's screen as passed. */
    method ConsumeSaveRequested(screenIn: Screen) returns (ok: bool, screen: Screen)
      requires Valid()
      modifies this
      ensures Valid() && trace == old(trace)
      ensures ok == old(ui.saveRequested)
      ensures ok ==> screen == old(ui.savedScreen) && State() == old(State()).(ui := old(ui).(saveRequested := false))
      ensures !ok ==> screen == screenIn && State() == old(State())
    {
      if !ui.saveRequested {
        return false, screenIn;
      }
      ui := ui.(saveRequested := false);
      return true, ui.savedScreen;
    }
  }
}
