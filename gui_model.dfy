/** The GUI state machine on values: the UI state, the edited values and the dirty
    flags, and one tick of guiUpdate split into the phases it processes in order. */
module GuiModel {
  import opened CInt
  import opened GuiMath
  import opened Frequency
  import opened GuiConfig

  datatype Screen = Frq | Mod | Pwr

  /** The footer entries, left to right. */
  datatype FooterItem = FootFrq | FootMod | FootPwr | FootOn

  /** The footer entry's enumerator value. */
  function FooterIndex(f: FooterItem): (i: int)
    ensures 0 <= i < 4 && FooterAt(i) == f
  {
    match f
    case FootFrq => 0
    case FootMod => 1
    case FootPwr => 2
    case FootOn => 3
  }

  function FooterAt(i: int): (f: FooterItem)
    requires 0 <= i < 4
  {
    if i == 0 then FootFrq else if i == 1 then FootMod else if i == 2 then FootPwr else FootOn
  }

  /** A left press: one entry back, from the first to the last. */
  function FooterLeft(f: FooterItem): FooterItem
  {
    var i := FooterIndex(f) - 1;
    FooterAt(if i < 0 then 3 else i)
  }

  /** A right press: one entry on, from the last to the first. */
  function FooterRight(f: FooterItem): FooterItem
  {
    var i := FooterIndex(f) + 1;
    FooterAt(if i > 3 then 0 else i)
  }

  /** Footer navigation is a cycle of length four and left undoes right. */
  lemma FooterNavigationIsCyclic(f: FooterItem)
    ensures FooterIndex(FooterRight(f)) == (FooterIndex(f) + 1) % 4
    ensures FooterIndex(FooterLeft(f)) == (FooterIndex(f) + 3) % 4
    ensures FooterLeft(FooterRight(f)) == f && FooterRight(FooterLeft(f)) == f
    ensures FooterRight(FooterRight(FooterRight(FooterRight(f)))) == f
  {
  }

  /** The screen that follows a footer focus; the ON entry keeps the current screen. */
  function ScreenFor(f: FooterItem, current: Screen): (s: Screen)
    ensures f == FootOn ==> s == current
  {
    match f
    case FootFrq => Frq
    case FootMod => Mod
    case FootPwr => Pwr
    case FootOn => current
  }

  /** The UI struct: screen, edit mode and cursor, footer focus, toast deadline,
      the radio status shown, and the two outbound events. */
  datatype UiState = UiState(
    screen: Screen,
    edit: bool,
    cursor: u8,
    focus: FooterItem,
    toastUntil: u32,
    radioOn: bool,
    onToggleRequested: bool,
    saveRequested: bool,
    savedScreen: Screen)

  /** All of the GUI's state: the UI struct, the three edited values, the dirty
      flags of the header, value and footer zones, and the toast latch. */
  datatype GuiState = GuiState(
    ui: UiState,
    freqHz: i32,
    modIndex: i32,
    pwrIndex: i32,
    dirtyHeader: bool,
    dirtyValue: bool,
    dirtyFooter: bool,
    toastWasActive: bool)

  /** The inputs of one tick: the taken nav presses, the encoder's short and long
      presses, its delta, and the millisecond clock. */
  datatype Events = Events(left: bool, right: bool, short: bool, long: bool, delta: i32, now: u32)

  const DefaultUi := UiState(Frq, false, 0, FootFrq, 0, false, false, false, Frq)

  /** guiInit's state before its first render: start values, focus FRQ, every zone dirty. */
  function Initial(): (g: GuiState)
    ensures Inv(g) && g.dirtyHeader && g.dirtyValue && g.dirtyFooter
    ensures g.freqHz == FrqStartHz && g.modIndex == 0 && g.pwrIndex == 0
  {
    GuiLimitsFitGrid();
    LimitFreqOnGrid(FrqStartHz, GuiLimits);
    GuiState(DefaultUi,
      LimitFreq(FrqStartHz, GuiLimits),
      ModPos(ModIndexStart, |ModList|),
      ModPos(PwrIndexStart, |PwrList|),
      true, true, true, false)
  }

  /** The state every reachable GUI state satisfies. */
  ghost predicate Inv(g: GuiState)
  {
    && 0 <= g.modIndex < |ModList|
    && 0 <= g.pwrIndex < |PwrList|
    && GuiLimits.minHz <= g.freqHz <= GuiLimits.maxHz
    && g.freqHz % GuiLimits.stepHz == 0
    && g.ui.cursor < 6
    && (!g.ui.edit ==> g.ui.cursor == 0)
    && (g.ui.screen != Frq ==> g.ui.cursor == 0)
    && (g.ui.focus != FootOn ==> g.ui.screen == ScreenFor(g.ui.focus, g.ui.screen))
    && (g.ui.edit ==> g.ui.focus != FootOn)
  }

  // ---------- Transitions ----------

  /** focusSet: move the focus, let the screen follow it, and leave edit mode. */
  function FocusSet(g: GuiState, f: FooterItem): (r: GuiState)
  {
    g.(ui := g.ui.(focus := f, screen := ScreenFor(f, g.ui.screen), edit := false, cursor := 0))
  }

  function EnterEdit(g: GuiState): (r: GuiState)
  {
    g.(ui := g.ui.(edit := true, cursor := 0))
  }

  /** saveCurrentValue: leave edit mode, start the toast and raise the save event. */
  function SaveCurrentValue(g: GuiState, now: u32): (r: GuiState)
  {
    g.(ui := g.ui.(edit := false, cursor := 0, toastUntil := AddU32(now, ToastMs),
                   saveRequested := true, savedScreen := g.ui.screen))
  }

  function NextCursorPosition(g: GuiState): (r: GuiState)
  {
    g.(ui := g.ui.(cursor := if g.ui.screen == Frq then (g.ui.cursor + 1) % 6 else 0))
  }

  /** changeValueByDelta: the frequency moves by d steps of the cursor digit (int32_t
      arithmetic, wrapping on overflow) and is limited; a list index moves by d
      modulo the list length. */
  function ChangeValueByDelta(g: GuiState, d: i32): (r: GuiState)
  {
    if d == 0 then g
    else match g.ui.screen
      case Frq =>
        var f := Wrap32(g.freqHz + Wrap32(d * CursorStepHz(g.ui.cursor)));
        g.(freqHz := LimitFreq(f, GuiLimits))
      case Mod =>
        if |ModList| > 0 then g.(modIndex := ModPos(Wrap32(g.modIndex + d), |ModList|)) else g
      case Pwr =>
        if |PwrList| > 0 then g.(pwrIndex := ModPos(Wrap32(g.pwrIndex + d), |PwrList|)) else g
  }

  function MarkAll(g: GuiState): (r: GuiState)
  {
    g.(dirtyHeader := true, dirtyValue := true, dirtyFooter := true)
  }

  // ---------- The phases of one guiUpdate tick ----------

  /** Footer navigation, only outside edit mode: left first, then right. */
  function NavStep(g: GuiState, left: bool, right: bool): (r: GuiState)
  {
    if g.ui.edit then g
    else
      var g1 := if left then MarkAll(FocusSet(g, FooterLeft(g.ui.focus))) else g;
      if right then MarkAll(FocusSet(g1, FooterRight(g1.ui.focus))) else g1
  }

  /** A short press: toggle request on ON, enter edit elsewhere, next digit while editing. */
  function ShortStep(g: GuiState, short: bool): (r: GuiState)
  {
    if !short then g
    else if !g.ui.edit then
      if g.ui.focus == FootOn then g.(ui := g.ui.(onToggleRequested := true))
      else EnterEdit(g).(dirtyValue := true)
    else NextCursorPosition(g).(dirtyValue := true)
  }

  /** Rotation changes the value only in edit mode. */
  function RotateStep(g: GuiState, d: i32): (r: GuiState)
  {
    if d != 0 && g.ui.edit then ChangeValueByDelta(g, d).(dirtyValue := true) else g
  }

  /** A long press saves, only in edit mode. */
  function LongStep(g: GuiState, long: bool, now: u32): (r: GuiState)
  {
    if long && g.ui.edit then SaveCurrentValue(g, now).(dirtyHeader := true, dirtyValue := true) else g
  }

  /** Whether the toast is showing at now (an unsigned, non-modular comparison). */
  function ToastActive(g: GuiState, now: u32): bool
  {
    now < g.ui.toastUntil
  }

  /** The header is redrawn when the toast has just expired. */
  function ToastStep(g: GuiState, now: u32): (r: GuiState)
  {
    var active := ToastActive(g, now);
    g.(dirtyHeader := g.dirtyHeader || (g.toastWasActive && !active), toastWasActive := active)
  }

  /** The state changes of one guiUpdate tick, before the dirty zones are rendered. */
  function Step(g: GuiState, ev: Events): (r: GuiState)
  {
    var g1 := NavStep(g, ev.left, ev.right);
    var g2 := ShortStep(g1, ev.short);
    var g3 := RotateStep(g2, ev.delta);
    var g4 := LongStep(g3, ev.long, ev.now);
    ToastStep(g4, ev.now)
  }

  // ---------- The invariant ----------

  lemma NavStepKeepsInv(g: GuiState, left: bool, right: bool)
    requires Inv(g)
    ensures Inv(NavStep(g, left, right))
  {
  }

  lemma ShortStepKeepsInv(g: GuiState, short: bool)
    requires Inv(g)
    ensures Inv(ShortStep(g, short))
  {
  }

  lemma {:induction false} RotateStepKeepsInv(g: GuiState, d: i32)
    requires Inv(g)
    ensures Inv(RotateStep(g, d))
  {
    if d != 0 && g.ui.edit && g.ui.screen == Frq {
      var f := Wrap32(g.freqHz + Wrap32(d * CursorStepHz(g.ui.cursor)));
      GuiLimitsFitGrid();
      LimitFreqOnGrid(f, GuiLimits);
    }
  }

  lemma {:induction false} StepKeepsInv(g: GuiState, ev: Events)
    requires Inv(g)
    ensures Inv(Step(g, ev))
  {
    NavStepKeepsInv(g, ev.left, ev.right);
    var g1 := NavStep(g, ev.left, ev.right);
    ShortStepKeepsInv(g1, ev.short);
    var g2 := ShortStep(g1, ev.short);
    RotateStepKeepsInv(g2, ev.delta);
  }

  // ---------- Navigation ----------

  /** A left press outside edit mode moves the focus one entry back, the screen
      follows (or stays, for ON), edit mode ends and every zone is dirty. */
  lemma LeftPressMovesFocus(g: GuiState)
    requires !g.ui.edit
    ensures var r := NavStep(g, true, false);
      && r.ui.focus == FooterLeft(g.ui.focus)
      && FooterIndex(r.ui.focus) == (FooterIndex(g.ui.focus) + 3) % 4
      && r.ui.screen == ScreenFor(r.ui.focus, g.ui.screen)
      && !r.ui.edit && r.ui.cursor == 0
      && r.dirtyHeader && r.dirtyValue && r.dirtyFooter
      && r.freqHz == g.freqHz && r.modIndex == g.modIndex && r.pwrIndex == g.pwrIndex
  {
    FooterNavigationIsCyclic(g.ui.focus);
  }

  lemma RightPressMovesFocus(g: GuiState)
    requires !g.ui.edit
    ensures var r := NavStep(g, false, true);
      && r.ui.focus == FooterRight(g.ui.focus)
      && FooterIndex(r.ui.focus) == (FooterIndex(g.ui.focus) + 1) % 4
      && r.ui.screen == ScreenFor(r.ui.focus, g.ui.screen)
      && !r.ui.edit && r.ui.cursor == 0
      && r.dirtyHeader && r.dirtyValue && r.dirtyFooter
      && r.freqHz == g.freqHz && r.modIndex == g.modIndex && r.pwrIndex == g.pwrIndex
  {
    FooterNavigationIsCyclic(g.ui.focus);
  }

  /** Left and right in the same tick cancel out on the focus. The screen is kept
      too, except from ON: the left press shows PWR and the right press back to
      ON keeps it. */
  lemma BothPressesKeepFocus(g: GuiState)
    requires Inv(g) && !g.ui.edit
    ensures NavStep(g, true, true).ui.focus == g.ui.focus
    ensures g.ui.focus != FootOn ==> NavStep(g, true, true).ui.screen == g.ui.screen
    ensures g.ui.focus == FootOn ==> NavStep(g, true, true).ui.screen == Pwr
  {
    FooterNavigationIsCyclic(g.ui.focus);
  }

  /** In edit mode the nav buttons change nothing. */
  lemma NavIgnoredWhileEditing(g: GuiState, left: bool, right: bool)
    requires g.ui.edit
    ensures NavStep(g, left, right) == g
  {
  }

  // ---------- Short press ----------

  /** A short press outside edit mode on ON requests a toggle and changes nothing else. */
  lemma ShortPressOnToggles(g: GuiState)
    requires !g.ui.edit && g.ui.focus == FootOn
    ensures ShortStep(g, true) == g.(ui := g.ui.(onToggleRequested := true))
  {
  }

  /** A short press outside edit mode on FRQ, MOD or PWR enters edit at digit 0. */
  lemma ShortPressEntersEdit(g: GuiState)
    requires !g.ui.edit && g.ui.focus != FootOn
    ensures var r := ShortStep(g, true);
      r.ui.edit && r.ui.cursor == 0 && r.dirtyValue && r.ui.onToggleRequested == g.ui.onToggleRequested
  {
  }

  /** A short press in edit mode moves to the next digit on FRQ (after the last
      comes the first) and keeps digit 0 on a list screen. */
  lemma ShortPressAdvancesCursor(g: GuiState)
    requires Inv(g) && g.ui.edit
    ensures var r := ShortStep(g, true);
      && r.ui.edit && r.dirtyValue
      && (g.ui.screen == Frq ==> r.ui.cursor == (g.ui.cursor + 1) % 6)
      && (g.ui.screen != Frq ==> r.ui.cursor == 0)
  {
  }

  /** n short presses in a row. */
  function ShortPresses(g: GuiState, n: nat): (r: GuiState)
  {
    if n == 0 then g else ShortStep(ShortPresses(g, n - 1), true)
  }

  /** In edit mode on FRQ, n short presses move the cursor n digits on, cyclically,
      so six presses bring it back. */
  lemma {:induction false} ShortPressesCycleCursor(g: GuiState, n: nat)
    requires Inv(g) && g.ui.edit && g.ui.screen == Frq
    ensures var r := ShortPresses(g, n);
      Inv(r) && r.ui.edit && r.ui.screen == Frq && r.ui.cursor == (g.ui.cursor + n) % 6
    ensures n == 6 ==> ShortPresses(g, n).ui.cursor == g.ui.cursor
  {
    if n > 0 {
      ShortPressesCycleCursor(g, n - 1);
      var p := ShortPresses(g, n - 1);
      ShortPressAdvancesCursor(p);
      ShortStepKeepsInv(p, true);
      NextDigitModSix(g.ui.cursor + n - 1);
    }
  }

  lemma NextDigitModSix(x: nat)
    ensures (x % 6 + 1) % 6 == (x + 1) % 6
  {
    var q, r := x / 6, x % 6;
    assert x + 1 == 6 * q + (r + 1);
    if r == 5 {
      EuclideanUnique(x + 1, 6, q + 1, 0);
    } else {
      EuclideanUnique(x + 1, 6, q, r + 1);
    }
  }

  // ---------- Rotation ----------

  /** Outside edit mode, or with no rotation, the value is untouched. */
  lemma RotationOnlyWhileEditing(g: GuiState, d: i32)
    requires !g.ui.edit || d == 0
    ensures RotateStep(g, d) == g
  {
  }

  /** On a list screen one step forward and one step back restores the entry. */
  lemma {:induction false} ListStepBackRestores(g: GuiState)
    requires Inv(g) && g.ui.edit && g.ui.screen != Frq
    ensures RotateStep(RotateStep(g, 1), -1).modIndex == g.modIndex
    ensures RotateStep(RotateStep(g, 1), -1).pwrIndex == g.pwrIndex
  {
    if g.ui.screen == Mod {
      ModPosStepBackRestores(g.modIndex, |ModList|);
    } else {
      ModPosStepBackRestores(g.pwrIndex, |PwrList|);
    }
  }

  /** A list entry moves by d modulo the list length (when the int sum does not overflow). */
  lemma {:induction false} ListRotationIsModular(g: GuiState, d: i32)
    requires Inv(g) && g.ui.edit && g.ui.screen != Frq && d != 0
    requires g.ui.screen == Mod ==> g.modIndex + d <= I32Max
    requires g.ui.screen == Pwr ==> g.pwrIndex + d <= I32Max
    ensures var r := RotateStep(g, d);
      && r.freqHz == g.freqHz && r.dirtyValue
      && (g.ui.screen == Mod ==> r.modIndex == (g.modIndex + d) % |ModList| && r.pwrIndex == g.pwrIndex)
      && (g.ui.screen == Pwr ==> r.pwrIndex == (g.pwrIndex + d) % |PwrList| && r.modIndex == g.modIndex)
  {
    if g.ui.screen == Mod {
      ModPosIsEuclidean(g.modIndex + d, |ModList|);
    } else {
      ModPosIsEuclidean(g.pwrIndex + d, |PwrList|);
    }
  }

  /** A frequency edit that stays inside the bounds moves by exactly d steps of
      the cursor digit. */
  lemma {:induction false} FreqStepIsExact(g: GuiState, d: i32)
    requires Inv(g) && g.ui.edit && g.ui.screen == Frq && d != 0
    requires GuiLimits.minHz <= g.freqHz + d * CursorStepHz(g.ui.cursor) <= GuiLimits.maxHz
    ensures RotateStep(g, d).freqHz == g.freqHz + d * CursorStepHz(g.ui.cursor)
  {
    var step := CursorStepHz(g.ui.cursor);
    var t := g.freqHz + d * step;
    StepIsOnGrid(g.ui.cursor);
    GridSum(g.freqHz, d, step);
  }

  /** Every cursor step is a whole number of kHz. */
  lemma StepIsOnGrid(c: u8)
    ensures CursorStepHz(c) % 1000 == 0 && 1000 <= CursorStepHz(c) <= 100000000
  {
  }

  lemma GridSum(f: int, d: int, step: int)
    requires f % 1000 == 0 && step % 1000 == 0
    ensures (f + d * step) % 1000 == 0
  {
    var a, b := f / 1000, step / 1000;
    assert f + d * step == 1000 * (a + d * b) by {
      assert step == 1000 * b;
      assert d * step == 1000 * (d * b);
    }
    MultipleHasNoRemainder(1000, a + d * b);
  }

  /** An edit past a bound (without int32_t overflow) stops at that bound. */
  lemma {:induction false} FreqStepSaturates(g: GuiState, d: i32)
    requires Inv(g) && g.ui.edit && g.ui.screen == Frq && d != 0
    requires I32Min <= d * CursorStepHz(g.ui.cursor) <= I32Max
    requires I32Min <= g.freqHz + d * CursorStepHz(g.ui.cursor) <= I32Max
    ensures g.freqHz + d * CursorStepHz(g.ui.cursor) > GuiLimits.maxHz ==> RotateStep(g, d).freqHz == GuiLimits.maxHz
    ensures g.freqHz + d * CursorStepHz(g.ui.cursor) < GuiLimits.minHz ==> RotateStep(g, d).freqHz == GuiLimits.minHz
  {
  }

  /** Twenty-two detents up at the hundreds-of-MHz digit overflow int32_t: the
      product wraps negative and the clamp then lands on the lower bound. */
  lemma LargeDeltaOverflowsToMinimum()
    ensures var g := Initial().(ui := DefaultUi.(edit := true));
      RotateStep(g, 22).freqHz == GuiLimits.minHz
  {
    assert Wrap32(22 * 100000000) == 2200000000 - U32Mod;
    assert CRem(104200000 + 2200000000 - U32Mod, 1000) == -296;
  }

  // ---------- Long press and toast ----------

  /** A long press in edit mode leaves edit, starts the toast for ToastMs, raises
      the save event for the current screen and dirties header and value. */
  lemma LongPressSaves(g: GuiState, now: u32)
    requires g.ui.edit
    ensures var r := LongStep(g, true, now);
      && !r.ui.edit && r.ui.cursor == 0
      && r.ui.toastUntil == AddU32(now, ToastMs)
      && r.ui.saveRequested && r.ui.savedScreen == g.ui.screen
      && r.dirtyHeader && r.dirtyValue
      && r.freqHz == g.freqHz && r.modIndex == g.modIndex && r.pwrIndex == g.pwrIndex
  {
  }

  /** Outside edit mode a long press changes nothing: no save without an edit. */
  lemma LongPressWithoutEditIsIgnored(g: GuiState, now: u32)
    requires !g.ui.edit
    ensures LongStep(g, true, now) == g
  {
  }

  /** The toast of a save is active for the next ToastMs milliseconds (unless the
      deadline wraps past the end of the 32-bit clock). */
  lemma SaveShowsToast(g: GuiState, now: u32, later: u32)
    requires g.ui.edit && now + ToastMs < U32Mod
    ensures ToastActive(LongStep(g, true, now), later) <==> later < now + ToastMs
  {
  }

  /** A save in the last ToastMs milliseconds before the clock wraps shows no toast. */
  lemma SaveNearClockWrapShowsNoToast(g: GuiState, now: u32)
    requires g.ui.edit && U32Mod <= now + ToastMs
    ensures !ToastActive(LongStep(g, true, now), now)
  {
  }

  /** The header is marked dirty by the toast phase exactly on the tick the toast
      turns from active to inactive; the next tick does not mark it again. */
  lemma ToastExpiryMarksHeaderOnce(g: GuiState, now: u32, next: u32)
    requires !g.dirtyHeader && now <= next
    ensures ToastStep(g, now).dirtyHeader <==> g.toastWasActive && !ToastActive(g, now)
    ensures ToastStep(g, now).toastWasActive <==> ToastActive(g, now)
    ensures !ToastActive(g, now) ==> !ToastStep(ToastStep(g, now).(dirtyHeader := false), next).dirtyHeader
  {
  }

  // ---------- Scenarios ----------

  /** Right to MOD, short press, one detent, long press: "FM" is saved for MOD. */
  lemma SelectModulationScenario()
    ensures var g0 := Initial().(dirtyHeader := false, dirtyValue := false, dirtyFooter := false);
      var g1 := Step(g0, Events(false, true, false, false, 0, 1000));
      var g2 := Step(g1, Events(false, false, true, false, 0, 1100));
      var g3 := Step(g2, Events(false, false, false, false, 1, 1200));
      var g4 := Step(g3, Events(false, false, false, true, 0, 2000));
      && g1.ui.focus == FootMod && g1.ui.screen == Mod && !g1.ui.edit
      && g2.ui.edit && g3.modIndex == 1 && ModList[g3.modIndex] == "FM"
      && !g4.ui.edit && g4.ui.saveRequested && g4.ui.savedScreen == Mod
      && g4.ui.toastUntil == 4000 && g4.toastWasActive && g4.modIndex == 1
  {
  }

  /** Short press on FRQ, one detent at digit 0, then next digit and one detent back:
      104.200 MHz becomes 204.200 MHz and then 194.200 MHz. */
  lemma EditFrequencyScenario()
    ensures var g0 := Initial();
      var g1 := Step(g0, Events(false, false, true, false, 0, 10));
      var g2 := Step(g1, Events(false, false, false, false, 1, 20));
      var g3 := Step(g2, Events(false, false, true, false, -1, 30));
      && g1.ui.edit && g1.ui.cursor == 0
      && g2.freqHz == 204200000
      && g3.ui.cursor == 1 && g3.freqHz == 194200000
  {
    var g0 := Initial();
    assert g0.freqHz == 104200000;
    var g1 := Step(g0, Events(false, false, true, false, 0, 10));
    assert CRem(204200000, 1000) == 0;
    assert CRem(194200000, 1000) == 0;
  }

  /** From the start focus FRQ one left press reaches ON (the screen stays FRQ);
      a short press there asks for the radio toggle and does not enter edit mode. */
  lemma ToggleRadioScenario()
    ensures var g0 := Initial();
      var g1 := Step(g0, Events(true, false, false, false, 0, 10));
      var g2 := Step(g1, Events(false, false, true, false, 0, 20));
      && g1.ui.focus == FootOn && g1.ui.screen == Frq
      && g2.ui.onToggleRequested && !g2.ui.edit
  {
  }
}
