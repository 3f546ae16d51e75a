/**
 * The VGA text-mode cell encoding: the 16-colour palette, the packed
 * attribute byte (blink bit, background, foreground) and the character cell.
 */
module VgatOut {
  import opened Options

  /** A character or attribute byte of the text-mode framebuffer. */
  type Byte = x: nat | x < 0x100

  /** The palette of text-mode colours, with the discriminants the enum declares. */
  datatype Color =
    | Black | Blue | Green | Cyan | Red | Magenta | Brown | LightGray
    | DarkGray | LightBlue | LightGreen | LightCyan | LightRed | Pink | Yello | White
  {
    /** The enum discriminant of this colour; every one fits in four bits. */
    function Value(): (v: nat)
      ensures v < 0x10
    {
      match this
      case Black => 0x0
      case Blue => 0x1
      case Green => 0x2
      case Cyan => 0x3
      case Red => 0x4
      case Magenta => 0x5
      case Brown => 0x6
      case LightGray => 0x7
      case DarkGray => 0x8
      case LightBlue => 0x9
      case LightGreen => 0xa
      case LightCyan => 0xb
      case LightRed => 0xc
      case Pink => 0xd
      case Yello => 0xe
      case White => 0xf
    }
  }

  /** The colour whose discriminant is `v`: how the display reads a 4-bit field. */
  function ColorOf(v: nat): (c: Color)
    requires v < 0x10
    ensures c.Value() == v
  {
    if v == 0x0 then Black
    else if v == 0x1 then Blue
    else if v == 0x2 then Green
    else if v == 0x3 then Cyan
    else if v == 0x4 then Red
    else if v == 0x5 then Magenta
    else if v == 0x6 then Brown
    else if v == 0x7 then LightGray
    else if v == 0x8 then DarkGray
    else if v == 0x9 then LightBlue
    else if v == 0xa then LightGreen
    else if v == 0xb then LightCyan
    else if v == 0xc then LightRed
    else if v == 0xd then Pink
    else if v == 0xe then Yello
    else White
  }

  /** Distinct colours have distinct discriminants, so `ColorOf` inverts `Value`. */
  lemma ColorOfValue(c: Color)
    ensures ColorOf(c.Value()) == c
    ensures forall d: Color :: d.Value() == c.Value() ==> d == c
  {
  }

  /** A colouring applied either to the background or to the foreground. */
  datatype ColoringStyle = WithBgColor(c: Color) | WithFgColor(c: Color)

  /**
   * The colouring byte: a foreground colour stays in the low nibble, a
   * background colour is shifted left by four.
   */
  function ColoringByte(s: ColoringStyle): (r: Byte)
    ensures s.WithFgColor? ==> r == s.c.Value() && r < 0x10
    ensures s.WithBgColor? ==> r == 0x10 * s.c.Value() && r % 0x10 == 0
    ensures s.WithBgColor? ==> (r < 0x80 <==> s.c.Value() < 8)
  {
    match s
    case WithBgColor(c) => ((c.Value() as bv8) << 4) as nat
    case WithFgColor(c) => c.Value()
  }

  /** How a character should be displayed: a blink flag and one colouring. */
  datatype DisplayStyle = DisplayStyle(blinking: bool, coloring: ColoringStyle)

  /** The value of the blink flag before it is shifted into place. */
  function BlinkBit(blinking: bool): (r: Byte)
  {
    if blinking then 1 else 0
  }

  /**
   * The attribute byte `blinking << 7 | coloring`. Bits 0-6 are those of the
   * colouring byte; bit 7 is set iff the style blinks OR the colouring byte
   * already has bit 7 set (a background colour of 8 or more).
   */
  function StyleByte(s: DisplayStyle): (r: Byte)
    ensures r % 0x80 == ColoringByte(s.coloring) % 0x80
    ensures r >= 0x80 <==> (s.blinking || ColoringByte(s.coloring) >= 0x80)
  {
    var bits := (BlinkBit(s.blinking) as bv8 << 7) | (ColoringByte(s.coloring) as bv8);
    OrBit7(BlinkBit(s.blinking), ColoringByte(s.coloring));
    bits as nat
  }

  /** Bit arithmetic behind `StyleByte`: OR-ing in bit 7 keeps the low seven bits. */
  lemma OrBit7(blink: Byte, coloring: Byte)
    requires blink < 2
    ensures var r := ((blink as bv8 << 7) | (coloring as bv8)) as nat;
      && r % 0x80 == coloring % 0x80
      && (r >= 0x80 <==> (blink == 1 || coloring >= 0x80))
  {
  }

  /** The foreground colour the display reads from bits 0-3 of an attribute byte. */
  function ForegroundOf(b: Byte): Color
  {
    ColorOf(b % 0x10)
  }

  /** The background colour read from the three background bits 4-6. */
  function BackgroundOf(b: Byte): Color
  {
    ColorOf(b / 0x10 % 8)
  }

  /** Whether bit 7, the blink bit, is set. */
  predicate Blinks(b: Byte)
  {
    b >= 0x80
  }

  /** A style whose colouring does not reach into bit 7. */
  predicate NonColliding(s: DisplayStyle)
  {
    s.coloring.WithFgColor? || s.coloring.c.Value() < 8
  }

  /** Reading the three fields of a byte assembled from blink, background and foreground bits. */
  lemma FieldsOf(r: Byte, blink: nat, bg: nat, fg: nat)
    requires blink < 2 && bg < 8 && fg < 0x10
    requires r == 0x80 * blink + 0x10 * bg + fg
    ensures r % 0x10 == fg && r / 0x10 % 8 == bg && (r >= 0x80 <==> blink == 1)
  {
  }

  /** Two bytes with bit 7 set that agree on bits 0-6 are equal. */
  lemma SameHighByte(r: Byte, q: Byte)
    requires r >= 0x80 && q >= 0x80 && r % 0x80 == q % 0x80
    ensures r == q
  {
  }

  /**
   * Decoding the packed byte of a non-colliding style recovers its parts:
   * the blink flag from bit 7, a foreground from the low nibble (with a black
   * background), a background from bits 4-6 (with a black foreground).
   */
  lemma DecodeStyleByte(s: DisplayStyle)
    requires NonColliding(s)
    ensures Blinks(StyleByte(s)) == s.blinking
    ensures s.coloring.WithFgColor? ==>
      ForegroundOf(StyleByte(s)) == s.coloring.c && BackgroundOf(StyleByte(s)) == Black
    ensures s.coloring.WithBgColor? ==>
      BackgroundOf(StyleByte(s)) == s.coloring.c && ForegroundOf(StyleByte(s)) == Black
  {
    var r := StyleByte(s);
    var v := s.coloring.c.Value();
    var blink := BlinkBit(s.blinking);
    ColorOfValue(s.coloring.c);
    if s.coloring.WithFgColor? {
      FieldsOf(r, blink, 0, v);
    } else {
      FieldsOf(r, blink, v, 0);
    }
  }

  /**
   * A background colour of 8 or more shifts its top bit into the blink
   * position: the byte reads as blinking whatever the flag, and the
   * background bits hold the colour minus 8.
   */
  lemma BrightBackgroundSetsBlink(s: DisplayStyle)
    requires s.coloring.WithBgColor? && s.coloring.c.Value() >= 8
    ensures Blinks(StyleByte(s))
    ensures BackgroundOf(StyleByte(s)).Value() == s.coloring.c.Value() - 8
    ensures ForegroundOf(StyleByte(s)) == Black
  {
    var r := StyleByte(s);
    var v := s.coloring.c.Value();
    var cb := ColoringByte(s.coloring);
    SameHighByte(r, cb);
    FieldsOf(r, 1, v - 8, 0);
  }

  /** Because of that collision, two different styles pack to the same byte. */
  lemma StyleByteCollides()
    ensures StyleByte(DisplayStyle(false, WithBgColor(DarkGray)))
         == StyleByte(DisplayStyle(true, WithBgColor(Black)))
  {
  }

  /** A character cell of the framebuffer: a style byte and a character byte. */
  datatype VgatChar = VgatChar(style: Byte, value: Byte)

  /**
   * `VgatChar::new`: the character is kept unchanged and the style is the
   * packed attribute byte, so the display reads back the requested colour and
   * blinks iff asked to or the background colour is 8 or more.
   */
  function NewVgatChar(value: Byte, style: DisplayStyle): (r: VgatChar)
    ensures r.value == value
    ensures r.style == StyleByte(style)
    ensures Blinks(r.style) <==> (style.blinking || !NonColliding(style))
    ensures style.coloring.WithFgColor? ==> ForegroundOf(r.style) == style.coloring.c
    ensures style.coloring.WithBgColor? ==>
      BackgroundOf(r.style).Value() == style.coloring.c.Value() % 8
  {
    var r := VgatChar(style := StyleByte(style), value := value);
    if NonColliding(style) then DecodeStyleByte(style); r
    else BrightBackgroundSetsBlink(style); r
  }

  /** The default framebuffer dimensions, `(rows, columns)`, declared as a pair of `u8`. */
  const DefaultDims: (Byte, Byte) := (25, 80)

  /**
   * A product of two `u8` values as Rust computes it: `None` when it
   * overflows (a compile-time error for constants, a panic in debug builds).
   */
  function MulU8(x: Byte, y: Byte): (r: Option<Byte>)
    ensures r.Some? <==> x * y < 0x100
    ensures r.Some? ==> r.value == x * y
  {
    if x * y < 0x100 then Some(x * y) else None
  }

  /** As written, the default buffer length is the `u8` product of the dimensions, which overflows. */
  lemma DefaultLengthOverflowsU8()
    ensures MulU8(DefaultDims.0, DefaultDims.1) == None
    ensures DefaultDims.0 * DefaultDims.1 > 0xff
  {
  }

  /** The intended number of cells in the default buffer: 25 rows of 80 columns. */
  function DefaultCellCount(): (n: nat)
    ensures n == 2000
    ensures n == DefaultDims.0 * DefaultDims.1
  {
    DefaultDims.0 as nat * DefaultDims.1 as nat
  }
}
