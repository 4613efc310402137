/** The GUI's configuration: theme colours and text sizes, zone heights, frequency
    constraints, start values and the two selection lists. */
module GuiConfig {
  import opened CInt
  import opened Frequency

  /** An RGB888 colour as the theme stores it. */
  datatype Rgb = Rgb(r: u8, g: u8, b: u8)

  const Black := Rgb(0, 0, 0)
  const HeaderText := Rgb(0, 255, 255)
  const HeaderSize: int := 2
  const ValueText := Rgb(255, 255, 255)
  const ValueSize: int := 3
  const UnitText := Rgb(180, 180, 180)
  const UnitSize: int := 1
  const FooterActive := Rgb(0, 255, 255)
  const FooterIdle := Rgb(160, 160, 160)
  const FooterSize: int := 1
  const LineColor := Rgb(80, 80, 80)
  const CursorColor := Rgb(255, 255, 0)
  const ToastColor := Rgb(0, 255, 0)
  /** The fixed colours of the unfocused ON and OFF labels. */
  const RadioOnColor := Rgb(0, 255, 0)
  const RadioOffColor := Rgb(255, 0, 0)

  /** 30.000 MHz to 511.999 MHz in 1 kHz steps, clamped. */
  const GuiLimits := Limits(30000000, 511999000, 1000, false)
  const ToastMs: u32 := 2000
  /** Zone heights in pixels: the header's last row is its separator line. */
  const HeaderH: int := 28
  const FooterH: int := 22

  const FrqStartHz: i32 := 104200000
  const ModIndexStart: i32 := 0
  const PwrIndexStart: i32 := 0

  /** The modulation and power lists, in selection order. */
  const ModList: seq<string> := ["AM", "FM", "USB", "LSB", "CW", "DIGI"]
  const PwrList: seq<string> := ["LOW", "MED", "HIGH"]

  /** The shipped frequency constraints meet what the corrected limitFreq needs
      for its grid guarantee. */
  lemma GuiLimitsFitGrid()
    ensures Aligned(GuiLimits) && Representable(GuiLimits)
    ensures GuiLimits.minHz % 1000 == 0 && GuiLimits.stepHz == 1000
  {
  }
}
