/** Dirty-zone rendering as a trace of abstract draw operations: the header, value
    and footer zones, each drawn only when dirty and each starting by clearing
    its own rectangle. */
module GuiRender {
  import opened CInt
  import opened Frequency
  import opened GuiConfig
  import opened GuiModel

  /** The display operations the GUI issues. */
  datatype DrawOp =
    | ClearScreen
    | FillRect(x: int, y: int, w: int, h: int, color: Rgb)
    | Text(s: string, x: int, y: int, size: int, color: Rgb)
    | Line(x0: int, y0: int, x1: int, y1: int, color: Rgb)

  datatype Rect = Rect(x: int, y: int, w: int, h: int)

  /** The three zones of a W x H display: header rows, value rows, footer rows. */
  function HeaderRect(W: int): Rect { Rect(0, 0, W, HeaderH) }
  function ValueRect(W: int, H: int): Rect { Rect(0, HeaderH, W, H - HeaderH - FooterH) }
  function FooterRect(W: int, H: int): Rect { Rect(0, H - FooterH, W, FooterH) }

  /** clearArea: fill a rectangle with black. */
  function Clear(r: Rect): DrawOp { FillRect(r.x, r.y, r.w, r.h, Black) }

  /** Text extent of the built-in 6x8 font at a size multiplier. */
  function TextW(s: string, size: int): int { |s| * 6 * size }
  function TextH(size: int): int { 8 * size }

  function ScreenName(s: Screen): string
  {
    match s
    case Frq => "Frequenz"
    case Mod => "Modulation"
    case Pwr => "Power"
  }

  const ToastMessage := "Wert gespeichert"
  const ToastSize: int := 2

  /** renderHeaderArea: clear, then the toast (centred, at least 6 px in) while it
      is active or else the screen name, then the separator on the last row. */
  function HeaderOps(g: GuiState, W: int, now: u32): (ops: seq<DrawOp>)
  {
    var title :=
      if ToastActive(g, now) then
        var x := CDiv(W - TextW(ToastMessage, ToastSize), 2);
        Text(ToastMessage, if x < 6 then 6 else x, 6, ToastSize, ToastColor)
      else Text(ScreenName(g.ui.screen), 6, 6, HeaderSize, HeaderText);
    [Clear(HeaderRect(W)), title, Line(0, HeaderH - 1, W - 1, HeaderH - 1, LineColor)]
  }

  function FooterLabel(name: string, x: int, y: int, focused: bool): DrawOp
  {
    Text(name, x, y, FooterSize, if focused then FooterActive else FooterIdle)
  }

  /** renderFooterArea: clear, separator on the first row, the three entries, and
      ON (green) or OFF (red) at the right, in the focus colour when focused. */
  function FooterOps(g: GuiState, W: int, H: int): (ops: seq<DrawOp>)
  {
    var y0 := H - FooterH;
    var y := y0 + 6;
    var onFocused := g.ui.focus == FootOn;
    var status :=
      if g.ui.radioOn then Text("ON", W - 28, y, FooterSize, if onFocused then FooterActive else RadioOnColor)
      else Text("OFF", W - 34, y, FooterSize, if onFocused then FooterActive else RadioOffColor);
    [ Clear(FooterRect(W, H)),
      Line(0, y0, W - 1, y0, LineColor),
      FooterLabel("FRQ", 10, y, g.ui.focus == FootFrq),
      FooterLabel("MOD", 50, y, g.ui.focus == FootMod),
      FooterLabel("PWR", 90, y, g.ui.focus == FootPwr),
      status ]
  }

  /** renderFRQ: the seven characters of the formatted frequency and "MHz",
      centred together; in edit mode the digit at the cursor is underlined. */
  function FrqOps(g: GuiState, W: int, H: int): (ops: seq<DrawOp>)
  {
    var text := FormatFreq(g.freqHz)[..7];
    var gap := 2 * ValueSize;
    var valueWidth := TextW(text, ValueSize);
    var startX := CDiv(W - (valueWidth + gap + TextW("MHz", UnitSize)), 2);
    var y := CDiv(H, 2) - CDiv(TextH(ValueSize), 2);
    var unitX := startX + valueWidth + gap;
    var unitY := y + TextH(ValueSize) - TextH(UnitSize);
    var base := [Text(text, startX, y, ValueSize, ValueText), Text("MHz", unitX, unitY, UnitSize, UnitText)];
    if g.ui.edit then
      var charW := 6 * ValueSize;
      var x0 := startX + CursorColumn(g.ui.cursor) * charW;
      var uy := y + 8 * ValueSize + ValueSize;
      base + [Line(x0, uy, x0 + charW - 2, uy, CursorColor)]
    else base
  }

  /** renderListValue: the entry centred one size larger; underlined in edit mode. */
  function ListOps(g: GuiState, W: int, H: int, value: string): (ops: seq<DrawOp>)
  {
    var size := ValueSize + 1;
    var w := TextW(value, size);
    var h := TextH(size);
    var x := CDiv(W - w, 2);
    var y := CDiv(H, 2) - CDiv(h, 2);
    [Text(value, x, y, size, ValueText)]
      + (if g.ui.edit then [Line(x, y + h + size, x + w - 2, y + h + size, CursorColor)] else [])
  }

  /** The entry shown for a list: the indexed entry, or "---" for an empty list. */
  function ListLabel(list: seq<string>, i: int): (s: string)
    requires |list| > 0 ==> 0 <= i < |list|
    ensures |list| == 0 ==> s == "---"
    ensures |list| > 0 ==> s == list[i]
  {
    if |list| > 0 then list[i] else "---"
  }

  predicate IndicesValid(g: GuiState)
  {
    0 <= g.modIndex < |ModList| && 0 <= g.pwrIndex < |PwrList|
  }

  /** renderValueArea: clear the rows between header and footer, then the screen's value. */
  function ValueOps(g: GuiState, W: int, H: int): (ops: seq<DrawOp>)
    requires IndicesValid(g)
  {
    [Clear(ValueRect(W, H))] +
      match g.ui.screen
      case Frq => FrqOps(g, W, H)
      case Mod => ListOps(g, W, H, ListLabel(ModList, g.modIndex))
      case Pwr => ListOps(g, W, H, ListLabel(PwrList, g.pwrIndex))
  }

  /** renderDirty: the dirty zones in the order header, value, footer. */
  function Frame(g: GuiState, W: int, H: int, now: u32): (ops: seq<DrawOp>)
    requires IndicesValid(g)
  {
    (if g.dirtyHeader then HeaderOps(g, W, now) else [])
      + (if g.dirtyValue then ValueOps(g, W, H) else [])
      + (if g.dirtyFooter then FooterOps(g, W, H) else [])
  }

  /** The state after renderDirty: every flag cleared. */
  function Settled(g: GuiState): (r: GuiState)
  {
    g.(dirtyHeader := false, dirtyValue := false, dirtyFooter := false)
  }

  // ---------- What a frame clears ----------

  /** The rectangles a sequence of operations fills, in order. */
  function Clears(ops: seq<DrawOp>): (rs: seq<Rect>)
    ensures |rs| <= |ops|
  {
    if ops == [] then []
    else
      var last := ops[|ops| - 1];
      Clears(ops[..|ops| - 1]) + (if last.FillRect? then [Rect(last.x, last.y, last.w, last.h)] else [])
  }

  lemma {:induction false} ClearsAppend(a: seq<DrawOp>, b: seq<DrawOp>)
    ensures Clears(a + b) == Clears(a) + Clears(b)
    decreases |b|
  {
    if b != [] {
      var b' := b[..|b| - 1];
      assert (a + b)[..|a + b| - 1] == a + b';
      ClearsAppend(a, b');
    } else {
      assert a + b == a;
    }
  }

  /** Sequences without a fill clear nothing. */
  lemma {:induction false} NoFillNoClears(ops: seq<DrawOp>)
    requires forall i :: 0 <= i < |ops| ==> !ops[i].FillRect?
    ensures Clears(ops) == []
  {
    if ops != [] {
      NoFillNoClears(ops[..|ops| - 1]);
    }
  }

  /** A zone that fills its rectangle first and never again clears exactly that rectangle. */
  lemma {:induction false} SingleClear(ops: seq<DrawOp>, r: Rect)
    requires |ops| > 0 && ops[0] == Clear(r)
    requires forall i :: 1 <= i < |ops| ==> !ops[i].FillRect?
    ensures Clears(ops) == [r]
  {
    var head, tail := ops[..1], ops[1..];
    assert head[..0] == [];
    assert Clears(head) == [r];
    NoFillNoClears(tail);
    ClearsAppend(head, tail);
    assert ops == head + tail;
  }

  /** Each zone begins with its own clear and clears nothing else. */
  lemma {:induction false} ZoneStartsWithItsClear(g: GuiState, W: int, H: int, now: u32)
    requires IndicesValid(g)
    ensures HeaderOps(g, W, now)[0] == Clear(HeaderRect(W)) && Clears(HeaderOps(g, W, now)) == [HeaderRect(W)]
    ensures ValueOps(g, W, H)[0] == Clear(ValueRect(W, H)) && Clears(ValueOps(g, W, H)) == [ValueRect(W, H)]
    ensures FooterOps(g, W, H)[0] == Clear(FooterRect(W, H)) && Clears(FooterOps(g, W, H)) == [FooterRect(W, H)]
  {
    HeaderClearsOnce(g, W, now);
    ValueClearsOnce(g, W, H);
    FooterClearsOnce(g, W, H);
  }

  lemma HeaderClearsOnce(g: GuiState, W: int, now: u32)
    ensures HeaderOps(g, W, now)[0] == Clear(HeaderRect(W)) && Clears(HeaderOps(g, W, now)) == [HeaderRect(W)]
  {
    SingleClear(HeaderOps(g, W, now), HeaderRect(W));
  }

  lemma ValueClearsOnce(g: GuiState, W: int, H: int)
    requires IndicesValid(g)
    ensures ValueOps(g, W, H)[0] == Clear(ValueRect(W, H)) && Clears(ValueOps(g, W, H)) == [ValueRect(W, H)]
  {
    var ops := ValueOps(g, W, H);
    assert forall i :: 1 <= i < |ops| ==> !ops[i].FillRect? by {
      match g.ui.screen
      case Frq =>
      case Mod =>
      case Pwr =>
    }
    SingleClear(ops, ValueRect(W, H));
  }

  lemma FooterClearsOnce(g: GuiState, W: int, H: int)
    ensures FooterOps(g, W, H)[0] == Clear(FooterRect(W, H)) && Clears(FooterOps(g, W, H)) == [FooterRect(W, H)]
  {
    SingleClear(FooterOps(g, W, H), FooterRect(W, H));
  }

  /** The zones a state needs redrawn, in drawing order. */
  function DirtyRects(g: GuiState, W: int, H: int): seq<Rect>
  {
    (if g.dirtyHeader then [HeaderRect(W)] else [])
      + (if g.dirtyValue then [ValueRect(W, H)] else [])
      + (if g.dirtyFooter then [FooterRect(W, H)] else [])
  }

  /** A frame clears exactly the dirty zones, in order: only dirty zones are drawn. */
  lemma {:induction false} FrameClearsExactlyDirtyZones(g: GuiState, W: int, H: int, now: u32)
    requires IndicesValid(g)
    ensures Clears(Frame(g, W, H, now)) == DirtyRects(g, W, H)
  {
    ZoneStartsWithItsClear(g, W, H, now);
    var a := if g.dirtyHeader then HeaderOps(g, W, now) else [];
    var b := if g.dirtyValue then ValueOps(g, W, H) else [];
    var c := if g.dirtyFooter then FooterOps(g, W, H) else [];
    ClearsAppend(a, b);
    ClearsAppend(a + b, c);
  }

  /** What a zone draws depends on the UI state and the values, not on the dirty flags. */
  lemma ZonesIgnoreDirtyFlags(g: GuiState, h: GuiState, W: int, H: int, now: u32)
    requires IndicesValid(g)
    requires h.ui == g.ui && h.freqHz == g.freqHz && h.modIndex == g.modIndex && h.pwrIndex == g.pwrIndex
    ensures HeaderOps(h, W, now) == HeaderOps(g, W, now)
    ensures ValueOps(h, W, H) == ValueOps(g, W, H)
    ensures FooterOps(h, W, H) == FooterOps(g, W, H)
  {
    assert ToastActive(h, now) == ToastActive(g, now);
    ValueIgnoresDirtyFlags(g, h, W, H);
  }

  lemma ValueIgnoresDirtyFlags(g: GuiState, h: GuiState, W: int, H: int)
    requires IndicesValid(g)
    requires h.ui == g.ui && h.freqHz == g.freqHz && h.modIndex == g.modIndex && h.pwrIndex == g.pwrIndex
    ensures ValueOps(h, W, H) == ValueOps(g, W, H)
  {
    assert FrqOps(h, W, H) == FrqOps(g, W, H);
    assert ListOps(h, W, H, ListLabel(ModList, g.modIndex)) == ListOps(g, W, H, ListLabel(ModList, g.modIndex));
    assert ListOps(h, W, H, ListLabel(PwrList, g.pwrIndex)) == ListOps(g, W, H, ListLabel(PwrList, g.pwrIndex));
  }

  /** A state with nothing dirty renders nothing. */
  lemma CleanStateDrawsNothing(g: GuiState, W: int, H: int, now: u32)
    requires IndicesValid(g) && !g.dirtyHeader && !g.dirtyValue && !g.dirtyFooter
    ensures Frame(g, W, H, now) == []
  {
  }

  /** The zones tile the display rows: header, value and footer meet without overlap. */
  lemma ZonesTileRows(W: int, H: int)
    requires HeaderH + FooterH <= H
    ensures HeaderRect(W).y == 0
    ensures HeaderRect(W).y + HeaderRect(W).h == ValueRect(W, H).y
    ensures ValueRect(W, H).y + ValueRect(W, H).h == FooterRect(W, H).y
    ensures FooterRect(W, H).y + FooterRect(W, H).h == H
    ensures 0 <= ValueRect(W, H).h
  {
  }

  // ---------- Each zone draws inside its own rows ----------

  /** The rows an operation touches lie in [top, bottom). */
  predicate WithinRows(op: DrawOp, top: int, bottom: int)
  {
    match op
    case ClearScreen => false
    case FillRect(_, y, _, h, _) => top <= y && y + h <= bottom
    case Text(_, _, y, size, _) => top <= y && y + TextH(size) <= bottom
    case Line(_, y0, _, y1, _) => top <= y0 < bottom && top <= y1 < bottom
  }

  /** On a display at least 88 rows high, every operation of a zone stays in the
      zone's rows, so redrawing one zone never touches another. */
  lemma ZonesDrawInsideTheirRows(g: GuiState, W: int, H: int, now: u32)
    requires IndicesValid(g) && 88 <= H
    ensures forall op :: op in HeaderOps(g, W, now) ==> WithinRows(op, 0, HeaderH)
    ensures forall op :: op in ValueOps(g, W, H) ==> WithinRows(op, HeaderH, H - FooterH)
    ensures forall op :: op in FooterOps(g, W, H) ==> WithinRows(op, H - FooterH, H)
  {
    HeaderInsideRows(g, W, now);
    ValueInsideRows(g, W, H);
    FooterInsideRows(g, W, H);
  }

  lemma HeaderInsideRows(g: GuiState, W: int, now: u32)
    ensures forall op :: op in HeaderOps(g, W, now) ==> WithinRows(op, 0, HeaderH)
  {
  }

  lemma ValueInsideRows(g: GuiState, W: int, H: int)
    requires IndicesValid(g) && 88 <= H
    ensures forall op :: op in ValueOps(g, W, H) ==> WithinRows(op, HeaderH, H - FooterH)
  {
  }

  lemma FooterInsideRows(g: GuiState, W: int, H: int)
    requires 88 <= H
    ensures forall op :: op in FooterOps(g, W, H) ==> WithinRows(op, H - FooterH, H)
  {
  }

  // ---------- Content ----------

  /** The header shows the toast while it is active and the screen name otherwise. */
  lemma HeaderShowsToastOrScreenName(g: GuiState, W: int, now: u32)
    ensures HeaderOps(g, W, now)[1].Text?
    ensures ToastActive(g, now) ==> HeaderOps(g, W, now)[1].s == "Wert gespeichert"
    ensures !ToastActive(g, now) ==> HeaderOps(g, W, now)[1].s == ScreenName(g.ui.screen)
    ensures 6 <= HeaderOps(g, W, now)[1].x
  {
  }

  /** The footer highlights exactly the focused entry. */
  lemma FooterHighlightsFocus(g: GuiState, W: int, H: int)
    ensures var ops := FooterOps(g, W, H);
      forall i :: 2 <= i < 6 ==> ops[i].Text? && (ops[i].color == FooterActive <==> FooterAt(i - 2) == g.ui.focus)
  {
  }

  /** On FRQ the value zone shows the formatted frequency and, in edit mode, an
      underline under exactly the character cell of the cursor digit, never under
      the decimal point. */
  lemma {:induction false} UnderlineMarksCursorCell(g: GuiState, W: int, H: int)
    requires IndicesValid(g) && g.ui.screen == Frq && g.ui.edit && g.ui.cursor <= 5 && 0 <= g.freqHz
    ensures var ops := ValueOps(g, W, H);
      && |ops| == 4 && ops[1].Text? && ops[3].Line?
      && ops[1].s == FormatFreq(g.freqHz)[..7]
      && ops[3].x0 == ops[1].x + CursorColumn(g.ui.cursor) * 6 * ValueSize
      && ops[3].x1 < ops[1].x + (CursorColumn(g.ui.cursor) + 1) * 6 * ValueSize
      && ops[1].s[CursorColumn(g.ui.cursor)] != '.'
  {
  }

  /** Outside edit mode nothing is underlined. */
  lemma NoUnderlineOutsideEdit(g: GuiState, W: int, H: int)
    requires IndicesValid(g) && !g.ui.edit
    ensures forall op :: op in ValueOps(g, W, H) ==> !op.Line?
  {
  }
}
