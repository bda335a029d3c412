/**
 * Decoding of a packed cell attribute word into a foreground/background
 * colour pair (the colour block of TerminalView.onDraw).
 *
 * The attribute word is a Java `int`, modelled as `bv32`. The buffer's
 * masks and shifts (COLOR_FG, COLOR_FG_SHIFT, COLOR_BG, COLOR_BG_SHIFT,
 * BOLD) are not fixed here: they are carried by a `Layout` value. The
 * palette (Colors.defaults) is a sequence of Java `int` colours.
 */
module Attributes {

  const TwoTo31: int := 0x8000_0000
  const TwoTo32: int := 0x1_0000_0000

  /** The buffer's attribute masks and shift counts. */
  datatype Layout = Layout(
    colorFg: bv32,
    colorFgShift: int,
    colorBg: bv32,
    colorBgShift: int,
    bold: bv32)

  datatype ColorPair = ColorPair(fg: int, bg: int)

  /** The value of a 32-bit word read as a Java (two's complement) `int`. */
  function ToSigned(w: bv32): int
  {
    if w < 0x8000_0000 then w as int else w as int - TwoTo32
  }

  /** Wraps a mathematical integer to the Java `int` range. */
  function Wrap32(x: int): (v: int)
    ensures -TwoTo31 <= v < TwoTo31
    ensures -TwoTo31 <= x < TwoTo31 ==> v == x
  {
    (x + TwoTo31) % TwoTo32 - TwoTo31
  }

  function Pow2(k: nat): (p: nat)
    ensures p >= 1
  {
    if k == 0 then 1 else 2 * Pow2(k - 1)
  }

  /**
   * Java's arithmetic `v >> s` on an `int`: the shift count is taken
   * modulo 32 and the result is the signed value divided by 2^count,
   * rounded toward minus infinity (Dafny's `/` with a positive divisor).
   */
  function JavaShr(w: bv32, s: int): int
  {
    ToSigned(w) / Pow2(s % 32)
  }

  /**
   * The palette index selected by a masked colour field: the shifted field
   * minus one (in Java `int` arithmetic) when any bit of it is set, else
   * the given default index.
   */
  function FieldIndex(masked: bv32, shift: int, default: int): int
  {
    if masked != 0 then Wrap32(JavaShr(masked, shift) - 1) else default
  }

  /** Palette index of the foreground before bold promotion. */
  function FgBase(a: bv32, l: Layout): int
  {
    FieldIndex(a & l.colorFg, l.colorFgShift, 15)
  }

  /** Palette index actually used for the foreground. */
  function FgSlot(a: bv32, l: Layout): int
  {
    var base := FgBase(a, l);
    if base < 8 && a & l.bold != 0 then base + 8 else base
  }

  /** Palette index used for the background. */
  function BgSlot(a: bv32, l: Layout): int
  {
    FieldIndex(a & l.colorBg, l.colorBgShift, 0)
  }

  /** Both palette lookups of the decode stay inside the palette (otherwise Java throws). */
  predicate Decodable(a: bv32, l: Layout, palette: seq<int>)
  {
    0 <= FgSlot(a, l) < |palette| && 0 <= BgSlot(a, l) < |palette|
  }

  /** The colours a run with attribute `a` is painted with. */
  function DecodeColors(a: bv32, l: Layout, palette: seq<int>): (r: ColorPair)
    requires Decodable(a, l, palette)
    ensures r.fg in palette && r.bg in palette
  {
    ColorPair(palette[FgSlot(a, l)], palette[BgSlot(a, l)])
  }

  /** Two words carry the same colour fields (they may differ in BOLD and other flags). */
  predicate SameColorBits(a: bv32, b: bv32, l: Layout)
  {
    a & l.colorFg == b & l.colorFg && a & l.colorBg == b & l.colorBg
  }

  /** A masked field selects the default when zero, else the shifted field minus one. */
  lemma FieldIndexRule(masked: bv32, shift: int, default: int)
    ensures masked == 0 ==> FieldIndex(masked, shift, default) == default
    ensures masked != 0 ==> FieldIndex(masked, shift, default) == Wrap32(JavaShr(masked, shift) - 1)
  {
  }

  /**
   * The foreground index: the shifted foreground field minus one, or 15 when
   * the field is zero.
   */
  lemma ForegroundIndex(a: bv32, l: Layout)
    ensures a & l.colorFg == 0 ==> FgBase(a, l) == 15
    ensures a & l.colorFg != 0 ==> FgBase(a, l) == Wrap32(JavaShr(a & l.colorFg, l.colorFgShift) - 1)
  {
    FieldIndexRule(a & l.colorFg, l.colorFgShift, 15);
  }

  /**
   * The foreground colour: the bright variant at index + 8 exactly when the
   * index is a base colour (below 8) and BOLD is set, the entry at the index
   * otherwise.
   */
  lemma ForegroundRule(a: bv32, l: Layout, palette: seq<int>)
    requires Decodable(a, l, palette)
    ensures FgBase(a, l) < 8 && a & l.bold != 0 ==>
      0 <= FgBase(a, l) + 8 < |palette| && DecodeColors(a, l, palette).fg == palette[FgBase(a, l) + 8]
    ensures FgBase(a, l) >= 8 || a & l.bold == 0 ==>
      0 <= FgBase(a, l) < |palette| && DecodeColors(a, l, palette).fg == palette[FgBase(a, l)]
  {
  }

  /**
   * The background index: the shifted background field minus one, or 0 when
   * the field is zero.
   */
  lemma BackgroundIndex(a: bv32, l: Layout)
    ensures a & l.colorBg == 0 ==> BgSlot(a, l) == 0
    ensures a & l.colorBg != 0 ==> BgSlot(a, l) == Wrap32(JavaShr(a & l.colorBg, l.colorBgShift) - 1)
  {
    FieldIndexRule(a & l.colorBg, l.colorBgShift, 0);
  }

  /**
   * The background colour is the entry at the background index, and words
   * with the same background field get the same background, whatever their
   * other bits.
   */
  lemma BackgroundRule(a: bv32, b: bv32, l: Layout, palette: seq<int>)
    requires a & l.colorBg == b & l.colorBg
    requires Decodable(a, l, palette) && Decodable(b, l, palette)
    ensures 0 <= BgSlot(a, l) < |palette| && DecodeColors(a, l, palette).bg == palette[BgSlot(a, l)]
    ensures DecodeColors(a, l, palette).bg == DecodeColors(b, l, palette).bg
  {
    assert BgSlot(a, l) == BgSlot(b, l);
  }

  /**
   * A word with no colour bits decodes to the default pair: palette entry 15
   * on palette entry 0, with or without BOLD (15 is not a base colour).
   */
  lemma DefaultColors(a: bv32, l: Layout, palette: seq<int>)
    requires |palette| >= 16
    requires a & l.colorFg == 0 && a & l.colorBg == 0
    ensures Decodable(a, l, palette)
    ensures DecodeColors(a, l, palette) == ColorPair(palette[15], palette[0])
  {
  }

  /**
   * Of two words with the same colour fields, one with BOLD set and one
   * without, whose foreground is a base colour (index 0..7): the bold one is
   * drawn with the bright variant at index + 8, the plain one with the base
   * colour, and both on the same background.
   */
  lemma BoldPromotesBaseColor(plain: bv32, bold: bv32, l: Layout, palette: seq<int>)
    requires SameColorBits(plain, bold, l)
    requires plain & l.bold == 0 && bold & l.bold != 0
    requires 0 <= FgBase(plain, l) < 8 && |palette| >= 16 && 0 <= BgSlot(plain, l) < |palette|
    ensures Decodable(plain, l, palette) && Decodable(bold, l, palette)
    ensures DecodeColors(bold, l, palette).fg == palette[FgBase(plain, l) + 8]
    ensures DecodeColors(plain, l, palette).fg == palette[FgBase(plain, l)]
    ensures DecodeColors(bold, l, palette).bg == DecodeColors(plain, l, palette).bg
  {
    assert FgBase(bold, l) == FgBase(plain, l) && BgSlot(bold, l) == BgSlot(plain, l);
  }

  /**
   * BOLD makes no difference between two words with the same colour fields
   * whose foreground index is 8 or more (the default 15 or a bright colour).
   * A negative index, which only a malformed field yields, is still promoted.
   */
  lemma BoldIgnoredOutsideBaseColors(a: bv32, b: bv32, l: Layout, palette: seq<int>)
    requires SameColorBits(a, b, l)
    requires FgBase(a, l) >= 8
    requires Decodable(a, l, palette)
    ensures Decodable(b, l, palette)
    ensures DecodeColors(b, l, palette) == DecodeColors(a, l, palette)
  {
    assert FgBase(b, l) == FgBase(a, l) && BgSlot(b, l) == BgSlot(a, l);
  }
}
