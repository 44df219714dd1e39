/** The rendering settings of src/renderer.rs: an `SDLRenderer` holds a
    foreground and a background colour and an integer scale, and `draw`
    sizes a new surface to fit a text exactly. The font table is a
    parameter: a map from character to glyph width. Only the surface's
    dimensions are modelled, not the SDL surface itself. */
module Renderer {
  import opened Wrappers
  import opened Unifont

  /** Number of vertical pixels in each Unifont character. */
  const UnifontHeight: nat := 16

  /** The crate's own colour type: red, green, blue and alpha, in that order. */
  type Color = (u8, u8, u8, u8)

  /** SDL's `pixels::Color`, the form in which the renderer stores colours. */
  datatype SdlColor = SdlColor(r: u8, g: u8, b: u8, a: u8)

  /** `pixels::Color::RGBA(c.0, c.1, c.2, c.3)`. */
  function FromRgba(c: Color): SdlColor
  {
    SdlColor(c.0, c.1, c.2, c.3)
  }

  /** `pixels::Color::rgba()`. */
  function ToRgba(c: SdlColor): Color
  {
    (c.r, c.g, c.b, c.a)
  }

  /** Storing a colour and reading it back gives the same colour. */
  lemma ColorRoundTrip(c: Color, s: SdlColor)
    ensures ToRgba(FromRgba(c)) == c
    ensures FromRgba(ToRgba(s)) == s
  {
  }

  /** A glyph is half-width (8 pixels) or full-width (16 pixels). */
  datatype Width = Half | Full

  function Pixels(w: Width): (px: nat)
    ensures px == 8 || px == 16
  {
    match w
    case Half => 8
    case Full => 16
  }

  /** The glyph widths of the characters the compiled font contains. */
  type Font = map<char, Width>

  /** The error `count_char_width` returns for a character missing from the font. */
  datatype DrawError = CharacterNotInFont

  /** `count_char_width`: the sum of the widths (8 or 16) of the characters
      of `text`, or an error if one of them is not in the font. */
  function CountCharWidth(text: string, font: Font): (r: Result<nat, DrawError>)
    ensures r.Ok? <==> forall i :: 0 <= i < |text| ==> text[i] in font
    ensures r.Ok? ==> 8 * |text| <= r.value <= 16 * |text|
    ensures r.Ok? && text == [] ==> r.value == 0
    ensures r.Err? ==> r == Err(CharacterNotInFont)
  {
    if text == [] then Ok(0)
    else if text[0] !in font then Err(CharacterNotInFont)
    else
      match CountCharWidth(text[1..], font)
      case Err(err) => Err(err)
      case Ok(rest) => Ok(Pixels(font[text[0]]) + rest)
  }

  /** The width of a text is the sum of the widths of its parts. */
  lemma {:induction false} CountCharWidthAppend(a: string, b: string, font: Font)
    ensures var ra, rb := CountCharWidth(a, font), CountCharWidth(b, font);
            CountCharWidth(a + b, font) == if ra.Ok? && rb.Ok? then Ok(ra.value + rb.value) else Err(CharacterNotInFont)
  {
    if a == [] {
      assert a + b == b;
      assert CountCharWidth(a, font) == Ok(0);
    } else {
      CountCharWidthAppend(a[1..], b, font);
      assert (a + b)[1..] == a[1..] + b;
      assert (a + b)[0] == a[0];
    }
  }

  /** A single character is as wide as its glyph. */
  lemma CountCharWidthOne(c: char, font: Font)
    ensures CountCharWidth([c], font) == if c in font then Ok(Pixels(font[c])) else Err(CharacterNotInFont)
  {
  }

  /** The dimensions of the surface `draw` creates. */
  datatype SurfaceSize = SurfaceSize(width: nat, height: nat)

  /** The surface `draw` creates for `text` at `scale`: as wide as the text
      and `UnifontHeight` pixels high, both times the scale; if the text's
      width cannot be found, that error and no surface. */
  function DrawSize(text: string, font: Font, scale: u16): (r: Result<SurfaceSize, DrawError>)
  {
    match CountCharWidth(text, font)
    case Err(err) => Err(err)
    case Ok(width) => Ok(SurfaceSize(width * scale, UnifontHeight * scale))
  }

  /** `draw` fails exactly when `count_char_width` does, with its error. */
  lemma DrawSizeError(text: string, font: Font, scale: u16)
    ensures DrawSize(text, font, scale).Err? <==> exists i :: 0 <= i < |text| && text[i] !in font
    ensures DrawSize(text, font, scale).Err? ==> DrawSize(text, font, scale).error == CountCharWidth(text, font).error
  {
  }

  /** The surface is `16 * scale` pixels high whatever the text, and between
      `8 * scale` and `16 * scale` pixels wide per character. */
  lemma DrawSizeBounds(text: string, font: Font, scale: u16)
    requires DrawSize(text, font, scale).Ok?
    ensures var size := DrawSize(text, font, scale).value;
            size.height == 16 * scale
            && 8 * |text| * scale <= size.width <= 16 * |text| * scale
  {
    var width := CountCharWidth(text, font).value;
    assert 8 * |text| * scale <= width * scale by {
      MulMonotone(8 * |text|, width, scale);
    }
    assert width * scale <= 16 * |text| * scale by {
      MulMonotone(width, 16 * |text|, scale);
    }
  }

  lemma MulMonotone(x: nat, y: nat, k: nat)
    requires x <= y
    ensures x * k <= y * k
  {
  }

  /** The surface's width is the text's width at scale 1 times the scale. */
  lemma DrawSizeScales(text: string, font: Font, scale: u16)
    requires DrawSize(text, font, 1).Ok?
    ensures DrawSize(text, font, scale).Ok?
    ensures DrawSize(text, font, scale).value.width == scale * DrawSize(text, font, 1).value.width
    ensures DrawSize(text, font, scale).value.height == scale * DrawSize(text, font, 1).value.height
  {
  }

  /** Rendering settings: the text and background colours and the integer
      scale, which callers may set directly. */
  class SDLRenderer {
    /** The colour to draw the text with. */
    var fgColor: SdlColor
    /** The colour to fill the surface with before drawing text. */
    var bgColor: SdlColor
    /** Integer scale multiplier. */
    var scale: u16

    /** `SDLRenderer::new`: stores the given colours, with scale 1. */
    constructor (fgColor: Color, bgColor: Color)
      ensures this.fgColor == FromRgba(fgColor) && this.bgColor == FromRgba(bgColor)
      ensures GetForeground() == fgColor && GetBackground() == bgColor
      ensures scale == 1
    {
      this.fgColor := FromRgba(fgColor);
      this.bgColor := FromRgba(bgColor);
      scale := 1;
    }

    /** Sets the text colour for future draws; nothing else changes. */
    method SetForeground(color: Color)
      modifies this`fgColor
      ensures fgColor == FromRgba(color) && GetForeground() == color
      ensures bgColor == old(bgColor) && scale == old(scale)
    {
      fgColor := FromRgba(color);
    }

    /** The text colour, as an (r, g, b, a) tuple. */
    function GetForeground(): (color: Color)
      reads this
      ensures FromRgba(color) == fgColor
    {
      ToRgba(fgColor)
    }

    /** Sets the background colour for future draws; nothing else changes. */
    method SetBackground(color: Color)
      modifies this`bgColor
      ensures bgColor == FromRgba(color) && GetBackground() == color
      ensures fgColor == old(fgColor) && scale == old(scale)
    {
      bgColor := FromRgba(color);
    }

    /** The background colour, as an (r, g, b, a) tuple. */
    function GetBackground(): (color: Color)
      reads this
      ensures FromRgba(color) == bgColor
    {
      ToRgba(bgColor)
    }

    /** `draw`: the dimensions of the new surface sized to fit `text` at
      the current scale, or the error of `count_char_width`, in which case
      no surface is made. */
    method Draw(text: string, font: Font) returns (r: Result<SurfaceSize, DrawError>)
      ensures r.Err? <==> exists i :: 0 <= i < |text| && text[i] !in font
      ensures r.Err? ==> CountCharWidth(text, font).Err? && r.error == CountCharWidth(text, font).error
      ensures r.Ok? ==> r.value.height == UnifontHeight * scale
                        && r.value.width == CountCharWidth(text, font).value * scale
      // Carries DrawSizeBounds and DrawSizeScales over to the method.
      ensures r == DrawSize(text, font, scale)
    {
      var width := CountCharWidth(text, font);
      if width.Err? {
        return Err(width.error);
      }
      return Ok(SurfaceSize(width.value * scale, UnifontHeight * scale));
    }
  }
}
