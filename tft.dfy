/** The display driver's colour conversion: RGB888 packed into the 16-bit RGB565
    word the ST7735 controller takes. */
module TftDisplay {

  /** rgb565: the top five bits of red, six of green and five of blue. */
  function Rgb565(r: bv8, g: bv8, b: bv8): (c: bv16)
    ensures c >> 11 == (r >> 3) as bv16
    ensures (c >> 5) & 0x3F == (g >> 2) as bv16
    ensures c & 0x1F == (b >> 3) as bv16
  {
    ((r & 0xF8) as bv16 << 8) | ((g & 0xFC) as bv16 << 3) | ((b & 0xF8) as bv16 >> 3)
  }

  /** The RGB888 colour an RGB565 word stands for, low bits zero: the partner of Rgb565. */
  function Unpack565(c: bv16): (rgb: (bv8, bv8, bv8))
  {
    (((c >> 11) << 3) as bv8, (((c >> 5) & 0x3F) << 2) as bv8, ((c & 0x1F) << 3) as bv8)
  }

  /** Every RGB565 word is produced by packing the colour it unpacks to. */
  lemma PackUnpack(c: bv16)
    ensures var (r, g, b) := Unpack565(c); Rgb565(r, g, b) == c
  {
  }

  /** Unpacking a packed colour gives back the colour with its dropped low bits cleared. */
  lemma UnpackPack(r: bv8, g: bv8, b: bv8)
    ensures Unpack565(Rgb565(r, g, b)) == (r & 0xF8, g & 0xFC, b & 0xF8)
  {
  }

  /** The bits below the kept ones do not matter. */
  lemma LowBitsIgnored(r: bv8, g: bv8, b: bv8)
    ensures Rgb565(r, g, b) == Rgb565(r & 0xF8, g & 0xFC, b & 0xF8)
  {
  }

  /** Black is 0, white 0xFFFF, and the full primaries fill their own fields. */
  lemma Extremes()
    ensures Rgb565(0, 0, 0) == 0
    ensures Rgb565(255, 255, 255) == 0xFFFF
    ensures Rgb565(255, 0, 0) == 0xF800 && Rgb565(0, 255, 0) == 0x07E0 && Rgb565(0, 0, 255) == 0x001F
  {
  }
}
