# sdl2-unifont: font-table generator and renderer settings, in Dafny

This project models the two pieces of sdl2-unifont that hold logic.

**The `.hex` translator of build.rs.** At build time, each line `CODEPOINT:BITMAP` of a GNU Unifont
`.hex` file becomes one Rust map entry `CODEPOINT => { width: W, bitmap: [0x.., ...] },` of the
generated font table. `FontGen.ParseLine` splits a line on `:`, and `FontGen.ParseFields` says what
its two pieces yield (codepoint text, width, row windows) or that the line is malformed. `FontGen.EntryText` says what entry is written for it.
`FontGen.EntriesFor` gives a whole file: the entries in line order, or the single `InvalidData`
error `.hex file malformed` as soon as one line is bad. The methods `GenFontEntry`,
`GenFontEntriesFor` and `GenFontEntries` build the strings by appending, as build.rs does, and
are proved equal to those functions. The body of build.rs's line loop, which builds
`font_entry`, is its own method `GenFontEntry`, and the row loop inside it is the method
`AppendRows`. `str::split` is modelled by `Text.Split`, and
`{}` formatting of the width by `Text.DecimalText`. The generated entries are meant to be
`FontChar` values (src/unifont.rs:29-35). `Unifont.FontChar` is that type, and
`FontGen.EntryFontChar` is the value an entry denotes once compiled.

**`SDLRenderer` of src/renderer.rs.** This is a class with the foreground colour, the background
colour and the public `scale`. It has setters and getters for the colours. `Draw` returns the
dimensions of the surface it would create. `count_char_width` is only a TODO in the source, so
`Renderer.CountCharWidth` follows its doc comment: the sum of 8 or 16 per character, or an error
for a character missing from the font. The font is a parameter that maps each character to its
glyph width.

The model follows the code as written, including where it differs from what the code seems
to intend:
- Row `i` of a glyph is `bitmap[i..i + row_width]`, so it starts at character `i` rather than
  at `i * row_width`. Consecutive rows overlap (`RowWindowsOverlap`, `OverlapExample`).
- build.rs copies the codepoint text verbatim: it does not check that it is hexadecimal or
  parse it as a number, and neither does the model.
- Bitmaps of 33 to 35 and 65 to 67 characters pass the width check, because the width is
  `length / 4`. A bitmap of 34 or 35 characters gives 17 rows, so its entry cannot be a
  `FontChar`, whose bitmap holds exactly 16 (`SeventeenRowsNoFontChar`).
- Text after a second `:` on a line is ignored (`ParseLineFields`).
- src/renderer.rs does not compile as written. Line 13 lacks a `;`. `new` (line 35) stores its
  `Color` tuples directly in fields of type `pixels::Color`, without the `Color::RGBA`
  conversion the setters use. `get_background` (line 57) discards the colour with a stray `;`.
  `draw` multiplies a `u32` by a `u16` (line 66), and `Ok(surf)` (line 70) wraps the `Result`
  that `Surface::new` returns instead of the surface. The model takes the evident intent: the
  constructor converts both tuples as the setters do (`FromRgba`), `GetBackground` returns the
  colour, both products are taken on unbounded integers, and `Draw` returns the surface size.

## Model

| member | source | states |
|---|---|---|
| Text.Split | build.rs:35-47 | the split always has a first piece, so the `None` arm at line 40 cannot be taken; a second piece exists exactly when the line contains the separator |
| Text.SplitPiecesFree | build.rs:35 | no piece of the split contains the separator |
| Text.JoinSplit | build.rs:35 | splitting loses nothing: joining the pieces with the separator gives back the line |
| Text.SplitAtFirst | build.rs:35-47 | the first piece is the text before the first separator, and the remaining pieces are those of the text after it |
| Text.DecimalText | build.rs:61 | the formatted width is a non-empty string of decimal digits without a leading zero |
| Text.DecimalRoundTrip | build.rs:61 | reading the formatted number back as decimal gives the number |
| Unifont.AppendZeroByte | build.rs:70-71 | appending `00` to a half-width row multiplies its value by 256, so its low byte is zero (the unused half of the `u16`) |
| FontGen.RowWindows | build.rs:67-68 | the first `n` row windows `bitmap[i..i + row_width]`, as written, so there are exactly `n` of them; what each window holds is stated by `RowWindowsAt` |
| FontGen.RowWindowsAt | build.rs:67-68 | of the `n` rows, row `i` is exactly the `row_width` characters starting at character `i` |
| FontGen.RowSlicesInBounds | build.rs:64-68 | for every bitmap length the width check admits, every slice `bitmap[i..i + row_width]` with `i < len / row_width` is in bounds |
| FontGen.ParseFields | build.rs:53-58 | every rejected bitmap length fails with the one `InvalidData` error `.hex file malformed` |
| FontGen.ParseLine | build.rs:27-58 | every failure of a line is the one `InvalidData` error `.hex file malformed` |
| FontGen.LineEntry | build.rs:32-79 | a line has an entry exactly when it parses, and otherwise fails with the malformed-file error |
| FontGen.MissingColonIsMalformed | build.rs:43-47 | a line without `:` is malformed |
| FontGen.ParseLineAccepts | build.rs:53-58 | a line is accepted exactly when it has a `:` and its bitmap is 32 to 35 or 64 to 67 characters long; every other length is an error |
| FontGen.ParseLineFields | build.rs:35-51 | for a codepoint and bitmap without `:`, the line `codepoint:bitmap` parses to what those two pieces give, and so does the line with a second `:` and any text after it |
| FontGen.RowCount | build.rs:49-67 | the codepoint is kept verbatim, the width is `len / 4`, the row count is `len / row_width`, and it is 16 exactly when the length is neither 34 nor 35 |
| FontGen.RowWindowsOverlap | build.rs:67-68 | row `i` starts at character `i`, and consecutive rows share all but one character |
| FontGen.OverlapExample | build.rs:67-68 | for the bitmap with bytes `01`, `02`, ... the second row is `10` and the third is `02` |
| FontGen.RowLiteralShape | build.rs:70-74 | each row is written as `0x`, then the two bitmap characters followed by `00` for a half-width glyph or the four characters unchanged for a full-width one, then `, `; 8 characters in all |
| FontGen.RowDigits | build.rs:70-74 | the digits of one row literal: the row followed by `00` for a half-width glyph, the row alone otherwise; no contract of its own, its shape and value are stated by `RowLiteralShape` and `Unifont.AppendZeroByte` |
| FontGen.RowLiteral | build.rs:70-74 | one row literal `0x<digits>, `; no contract of its own, its layout is stated by `RowLiteralShape` and `RowLiteralDigits` |
| FontGen.RowsText | build.rs:66-75 | the rows of a glyph take exactly 8 characters each |
| FontGen.ReadRowsText | build.rs:66-75 | the row texts can be read back from the written row literals |
| FontGen.EntryHead | build.rs:49-61 | the entry text before the rows; no contract of its own, its layout and read-back are stated by `EntryHeadLayout` |
| FontGen.EntryText | build.rs:49-78 | the entry written for a parsed line; no contract of its own, its layout and read-back are stated by `EntryTextLayout` and `LineEntryLayout` |
| FontGen.EntryHeadLayout | build.rs:49-61 | an entry starts with the codepoint as written, then ` => { width: `, the width in decimal, then `, bitmap: [`; codepoint and width can be read back |
| FontGen.EntryTextLayout | build.rs:61-79 | an entry is its head, 8 characters per row and then `] },` with a line break; the rows can be read back |
| FontGen.ParsedRowsFit | build.rs:64-68 | every row of a parsed line is 2 characters for a half-width glyph and 4 for a full-width one |
| FontGen.LineEntryLayout | build.rs:49-79 | the entry written for an accepted line is its head, 8 characters per row and `] },` with a line break, and every parsed row can be read back from it |
| FontGen.AppendEntries | build.rs:79-82 | appending entries succeeds exactly when both parts did |
| FontGen.EntriesFor | build.rs:21-83 | the result of `gen_font_entries_for` as a function of the lines; no contract of its own, its acceptance and error are stated by `EntriesForAllOk`, its behaviour on joined files by `EntriesForAppend`, and the loop is proved equal to it by `GenFontEntriesFor` |
| FontGen.EntriesForAllOk | build.rs:31-82 | a file is accepted exactly when every one of its lines is; otherwise it fails with the `.hex file malformed` error and all entries are discarded |
| FontGen.EntriesForAppend | build.rs:88-99 | the entries of two line sequences are those of both read as one file, in order, or the first error |
| FontGen.GenFontEntry | build.rs:32-79 | the loop body's `font_entry` is the entry of the line, or the malformed-file error |
| FontGen.AppendRows | build.rs:67-75 | the row loop appends exactly the row literals of the windows `0 .. len / row_width`, in order |
| FontGen.GenFontEntriesFor | build.rs:21-83 | the appended result equals the in-order concatenation of the line entries, or the error if any line is malformed |
| FontGen.GenFontEntries | build.rs:88-100 | the result is that of the enabled planes' lines read as one file: plane 0 first, then plane 1, with the first error propagated |
| FontGen.EntryFontChar | src/unifont.rs:29-35 | the `FontChar` an entry denotes once the generated table is compiled, or none when it is not a valid `FontChar` literal; no contract of its own, stated by `HexBitmapFontChar` and `SeventeenRowsNoFontChar` |
| FontGen.HexBitmapFontChar | build.rs:53-74 | every accepted hex bitmap other than 34 or 35 digits (32, 33 and 64 to 67) yields a valid `FontChar` of width 8 or 16; row `i` holds the window at digit `i`, shifted into the high byte with a zero low byte for half-width glyphs |
| FontGen.SeventeenRowsNoFontChar | build.rs:54-67 | a 34- or 35-character bitmap passes the width check but yields 17 rows, which is not a `FontChar` |
| Renderer.ColorRoundTrip | src/renderer.rs:40-47 | converting a colour tuple to SDL's colour and back gives the same tuple, and the other way round |
| Renderer.CountCharWidth | src/renderer.rs:75-79 | the width is found exactly when every character is in the font, lies between 8 and 16 per character, is 0 for the empty text, and the error is the single not-in-font error |
| Renderer.CountCharWidthAppend | src/renderer.rs:75-79 | the width of a text is the sum of the widths of its parts, and fails if either part does |
| Renderer.CountCharWidthOne | src/renderer.rs:75-79 | one character is 8 or 16 wide as its glyph says, or an error if it is missing |
| Renderer.DrawSize | src/renderer.rs:63-68 | the error or surface size `draw` computes; no contract of its own, stated by `DrawSizeError`, `DrawSizeBounds` and `DrawSizeScales`, and `SDLRenderer.Draw` is proved equal to it |
| Renderer.DrawSizeError | src/renderer.rs:63-64 | drawing fails exactly when some character is missing, with the error of `count_char_width` |
| Renderer.DrawSizeBounds | src/renderer.rs:63-68 | the surface is `16 * scale` high and between `8 * scale` and `16 * scale` wide per character |
| Renderer.DrawSizeScales | src/renderer.rs:66-67 | both dimensions are those at scale 1 times the scale |
| Renderer.SDLRenderer.constructor | src/renderer.rs:34-36 | stores the given colours, which the getters return, and sets the scale to 1 |
| Renderer.SDLRenderer.SetForeground | src/renderer.rs:40-42 | the text colour becomes the given one, read back unchanged by the getter; background and scale are unchanged |
| Renderer.SDLRenderer.GetForeground | src/renderer.rs:45-47 | returns the tuple whose SDL colour is the stored text colour |
| Renderer.SDLRenderer.SetBackground | src/renderer.rs:50-53 | the background colour becomes the given one, read back unchanged by the getter; text colour and scale are unchanged |
| Renderer.SDLRenderer.GetBackground | src/renderer.rs:56-58 | returns the tuple whose SDL colour is the stored background colour |
| Renderer.SDLRenderer.Draw | src/renderer.rs:61-71 | fails exactly when a character is missing, with the width error and no surface; otherwise the surface is `count_char_width(text) * scale` wide and `16 * scale` high |

## Left out

- File reading in build.rs (`File::open`, `BufReader::lines`) and the `l.unwrap()` panic on a read error: a file is given as the sequence of its lines.
- build.rs `main`: environment variables, creating the output file and rendering the Handlebars template, which is a foreign library.
- The `plane-0` and `plane-1` features are two booleans of `GenFontEntries`; `#[cfg]` compilation itself is not modelled.
- Non-ASCII bitmaps, where `chars().count()` and byte slicing disagree: all text is taken to be ASCII.
- src/unifont.rs: its function bodies are empty. The xz-compressed `include_bytes!` data and the `IS_INITIALISED`/`UNIFONT` statics are decompression and process-wide initialisation. Only the `FontChar` type is used.
- SDL itself: `Surface::new` (including its own failure), `PixelFormatEnum` and the internals of `pixels::Color`. `Draw` returns the surface dimensions instead of a surface.
- Renderer.SDLRenderer.Draw: the `u32` products `width * scale` and `UNIFONT_HEIGHT * scale` are taken on unbounded integers, so their overflow is not modelled; the line does not compile as written (`u32 * u16`).
- Renderer.SDLRenderer.constructor: `new` stores the `Color` tuples without converting them, which does not compile; the constructor converts them with `FromRgba`, as the setters do.
- Renderer.CountCharWidth: the `&'static str` error's text is not given by the source; the model uses one error value.
- Pixel painting (scale, bold, italic) and the demo program in examples/demo.rs: nothing is rasterised in the source, and the demo is window and event handling.
