/** The `.hex` line translator of build.rs: each line `CODEPOINT:BITMAP` of a
    GNU Unifont file becomes one Rust map entry
    `CODEPOINT => { width: W, bitmap: [0x.., ...] },` of the generated font
    table. File reading is left out; a file is the sequence of its lines. */
module FontGen {
  import opened Wrappers
  import opened Text
  import opened Unifont

  /** The only error build.rs raises: `ErrorKind::InvalidData`. */
  datatype IoError = InvalidData(message: string)

  /** The error returned for every malformed line. */
  const CorruptFileErr: IoError := InvalidData(".hex file malformed")

  /** What build.rs takes from one accepted line: the codepoint text as
      written, the glyph width and the bitmap text of each emitted row. */
  datatype HexLine = HexLine(codepoint: string, width: nat, rows: seq<string>)

  // ---------------------------------------------------------------------
  // Parsing one line

  /** The first `n` row windows of `bitmap`: row `i` is the `rowWidth`
      characters starting at character `i` (not at `i * rowWidth`). */
  function RowWindows(bitmap: string, rowWidth: nat, n: nat): (rows: seq<string>)
    requires n + rowWidth <= |bitmap| + 1
    ensures |rows| == n
  {
    if n == 0 then []
    else RowWindows(bitmap, rowWidth, n - 1) + [bitmap[n - 1..n - 1 + rowWidth]]
  }

  /** Row `i` is exactly the `rowWidth` characters starting at character `i`. */
  lemma {:induction false} RowWindowsAt(bitmap: string, rowWidth: nat, n: nat)
    requires n + rowWidth <= |bitmap| + 1
    ensures forall i :: 0 <= i < n ==> RowWindows(bitmap, rowWidth, n)[i] == bitmap[i..i + rowWidth]
  {
    if n > 0 {
      RowWindowsAt(bitmap, rowWidth, n - 1);
    }
  }

  /** Every row slice `bitmap[i..i + rowWidth]` with `i < |bitmap| / rowWidth`
      is in bounds, for every bitmap length the width check lets through. */
  lemma RowSlicesInBounds(len: nat)
    requires len / 4 == 8 || len / 4 == 16
    ensures var rowWidth := len / 4 / 4; len / rowWidth + rowWidth <= len + 1
  {
  }

  /** What build.rs makes of a line once it has its two pieces: the width is
      the bitmap length over 4 and must be 8 or 16, and the bitmap is cut
      into `length / rowWidth` row windows. */
  function ParseFields(codepoint: string, bitmap: string): (r: Result<HexLine, IoError>)
    ensures r.Err? ==> r.error == CorruptFileErr
  {
    var width := |bitmap| / 4;
    if width != 8 && width != 16 then Err(CorruptFileErr)
    else
      var rowWidth := width / 4;
      RowSlicesInBounds(|bitmap|);
      Ok(HexLine(codepoint, width, RowWindows(bitmap, rowWidth, |bitmap| / rowWidth)))
  }

  /** Parses one line the way build.rs does: split on `:`, take the first
      piece as the codepoint and the second as the bitmap. */
  function ParseLine(line: string): (r: Result<HexLine, IoError>)
    ensures r.Err? ==> r.error == CorruptFileErr
  {
    var fields := Split(line, ':');
    if |fields| < 2 then Err(CorruptFileErr)
    else ParseFields(fields[0], fields[1])
  }

  // ---------------------------------------------------------------------
  // The text of one entry

  /** The number of bitmap characters in one row: 2 for a half-width glyph,
      4 for a full-width one. */
  function RowChars(halfWidth: bool): nat
  {
    if halfWidth then 2 else 4
  }

  predicate RowsFit(rows: seq<string>, halfWidth: bool)
  {
    forall i :: 0 <= i < |rows| ==> |rows[i]| == RowChars(halfWidth)
  }

  /** The digits of one emitted row literal: a half-width row gets `00`
      appended so that it fills the high byte of a 16-bit value. */
  function RowDigits(row: string, halfWidth: bool): string
  {
    if halfWidth then row + ZeroByte else row
  }

  const ZeroByte: string := "00"
  const HexPrefix: string := "0x"
  const RowSeparator: string := ", "

  /** One emitted row: `0x<digits>, `. */
  function RowLiteral(row: string, halfWidth: bool): string
  {
    HexPrefix + RowDigits(row, halfWidth) + RowSeparator
  }

  /** The emitted rows, in order; each row literal is 8 characters long. */
  function RowsText(rows: seq<string>, halfWidth: bool): (t: string)
    ensures RowsFit(rows, halfWidth) ==> |t| == 8 * |rows|
  {
    if rows == [] then ""
    else RowsText(rows[..|rows| - 1], halfWidth) + RowLiteral(rows[|rows| - 1], halfWidth)
  }

  const Arrow: string := " => { "
  const WidthLabel: string := "width: "
  const BitmapLabel: string := ", bitmap: ["
  const EntryTail: string := "] },\n"

  /** The text of an entry before its rows. */
  function EntryHead(codepoint: string, width: nat): string
  {
    codepoint + Arrow + WidthLabel + DecimalText(width) + BitmapLabel
  }

  /** The full entry build.rs writes for a parsed line. */
  function EntryText(e: HexLine): string
  {
    EntryHead(e.codepoint, e.width) + RowsText(e.rows, e.width == 8) + EntryTail
  }

  /** The entry for one line, or the error that aborts the file. */
  function LineEntry(line: string): (r: Result<string, IoError>)
    ensures r.Ok? <==> ParseLine(line).Ok?
    ensures r.Err? ==> r.error == CorruptFileErr
  {
    match ParseLine(line)
    case Ok(e) => Ok(EntryText(e))
    case Err(err) => Err(err)
  }

  // ---------------------------------------------------------------------
  // A whole file

  /** Appends the entries `y` to the entries `x`, keeping the first error. */
  function AppendEntries(x: Result<string, IoError>, y: Result<string, IoError>): (r: Result<string, IoError>)
    ensures r.Ok? <==> x.Ok? && y.Ok?
  {
    match x
    case Err(err) => Err(err)
    case Ok(s) =>
      match y
      case Err(err) => Err(err)
      case Ok(t) => Ok(s + t)
  }

  /** The concatenation, in order, of per-line results, or the first error. */
  function ConcatEntries(results: seq<Result<string, IoError>>): (r: Result<string, IoError>)
  {
    if results == [] then Ok("")
    else AppendEntries(ConcatEntries(results[..|results| - 1]), results[|results| - 1])
  }

  /** The per-line results of a file. */
  function LineEntries(lines: seq<string>): (results: seq<Result<string, IoError>>)
    ensures |results| == |lines|
  {
    seq(|lines|, i requires 0 <= i < |lines| => LineEntry(lines[i]))
  }

  /** `gen_font_entries_for` as a function of the file's lines: the entries
      of all lines concatenated in order, or an error as soon as one line is
      malformed (the entries before it are discarded). */
  function EntriesFor(lines: seq<string>): (r: Result<string, IoError>)
  {
    ConcatEntries(LineEntries(lines))
  }

  /** build.rs:32-79, the body of the line loop: builds `font_entry` for one
      line, or fails with the error that aborts the file. */
  method GenFontEntry(line: string) returns (r: Result<string, IoError>)
    ensures r == LineEntry(line)
  {
    var fontEntry := "";
    var split := Split(line, ':');
    // The first piece always exists (see Split).
    var codepoint := split[0];
    if |split| < 2 {
      return Err(CorruptFileErr);
    }
    var bitmap := split[1];
    fontEntry := fontEntry + codepoint;
    fontEntry := fontEntry + " => { ";
    var charWidth := |bitmap| / 4;
    if charWidth != 8 && charWidth != 16 {
      return Err(CorruptFileErr);
    }
    fontEntry := fontEntry + "width: " + DecimalText(charWidth) + ", bitmap: [";
    var rowWidth := charWidth / 4;
    RowSlicesInBounds(|bitmap|);
    assert fontEntry == EntryHead(codepoint, charWidth);
    fontEntry := AppendRows(fontEntry, bitmap, rowWidth);
    fontEntry := fontEntry + "] },\n";
    LineEntryOk(line, codepoint, bitmap);
    return Ok(fontEntry);
  }

  /** build.rs:67-75, the row loop: appends one row literal per row window
      `bitmap[i..i + rowWidth]`, for `i` from 0 up to `|bitmap| / rowWidth`. */
  method AppendRows(fontEntry: string, bitmap: string, rowWidth: nat) returns (r: string)
    requires rowWidth == 2 || rowWidth == 4
    requires |bitmap| / rowWidth + rowWidth <= |bitmap| + 1
    ensures r == fontEntry + RowsText(RowWindows(bitmap, rowWidth, |bitmap| / rowWidth), rowWidth == 2)
  {
    r := fontEntry;
    assert r == fontEntry + RowsText(RowWindows(bitmap, rowWidth, 0), rowWidth == 2);
    for i := 0 to |bitmap| / rowWidth
      invariant r == fontEntry + RowsText(RowWindows(bitmap, rowWidth, i), rowWidth == 2)
    {
      var line := bitmap[i..i + rowWidth];
      RowsTextStep(bitmap, rowWidth, i, rowWidth == 2);
      ghost var before := r;
      if rowWidth == 2 {
        r := r + "0x" + line + "00, ";
      } else {
        r := r + "0x" + line + ", ";
      }
      AppendRowLiteral(before, line, rowWidth == 2, r);
      AppendAssoc(fontEntry, RowsText(RowWindows(bitmap, rowWidth, i), rowWidth == 2), RowLiteral(line, rowWidth == 2));
    }
  }

  /** build.rs:21-83: one entry per line, appended in order; the first
      malformed line aborts the whole file. */
  method GenFontEntriesFor(lines: seq<string>) returns (r: Result<string, IoError>)
    ensures r == EntriesFor(lines)
  {
    var fontEntries := "";
    for n := 0 to |lines|
      invariant EntriesFor(lines[..n]) == Ok(fontEntries)
    {
      var fontEntry := GenFontEntry(lines[n]);
      if fontEntry.Err? {
        EntriesForAllOk(lines);
        return Err(CorruptFileErr);
      }
      EntriesForStep(lines, n);
      fontEntries := fontEntries + fontEntry.value;
    }
    assert lines[..|lines|] == lines;
    return Ok(fontEntries);
  }

  /** build.rs:88-100: the entries of plane 0, then those of plane 1, each
      included only when its feature is enabled; the first error is
      propagated. */
  method GenFontEntries(plane0: bool, plane1: bool, plane0Lines: seq<string>, plane1Lines: seq<string>)
    returns (r: Result<string, IoError>)
    ensures r == EntriesFor((if plane0 then plane0Lines else []) + (if plane1 then plane1Lines else []))
  {
    var fontEntries := "";
    var lines0: seq<string> := [];
    var lines1: seq<string> := [];
    if plane0 {
      var entries := GenFontEntriesFor(plane0Lines);
      if entries.Err? {
        EntriesForAppend(plane0Lines, if plane1 then plane1Lines else []);
        return entries;
      }
      assert "" + entries.value == entries.value;
      fontEntries := fontEntries + entries.value;
      lines0 := plane0Lines;
    }
    assert EntriesFor(lines0) == Ok(fontEntries);
    if plane1 {
      var entries := GenFontEntriesFor(plane1Lines);
      if entries.Err? {
        EntriesForAppend(lines0, plane1Lines);
        return entries;
      }
      assert AppendEntries(Ok(fontEntries), entries) == Ok(fontEntries + entries.value);
      fontEntries := fontEntries + entries.value;
      lines1 := plane1Lines;
    }
    assert AppendEntries(EntriesFor(lines0), EntriesFor(lines1)) == Ok(fontEntries) by {
      if !plane1 {
        assert fontEntries + "" == fontEntries;
      }
    }
    EntriesForAppend(lines0, lines1);
    assert lines0 + lines1 == (if plane0 then plane0Lines else []) + (if plane1 then plane1Lines else []);
    return Ok(fontEntries);
  }

  // ---------------------------------------------------------------------
  // Proof steps of the methods

  /** One more pass of the row loop appends the next row literal. */
  lemma RowsTextStep(bitmap: string, rowWidth: nat, i: nat, halfWidth: bool)
    requires i + 1 + rowWidth <= |bitmap| + 1
    ensures RowsText(RowWindows(bitmap, rowWidth, i + 1), halfWidth)
         == RowsText(RowWindows(bitmap, rowWidth, i), halfWidth) + RowLiteral(bitmap[i..i + rowWidth], halfWidth)
  {
    var prev := RowWindows(bitmap, rowWidth, i);
    var next := RowWindows(bitmap, rowWidth, i + 1);
    assert next == prev + [bitmap[i..i + rowWidth]];
    assert next[..i] == prev;
  }

  /** The entry of an accepted line, in terms of its two pieces. */
  lemma LineEntryOk(line: string, codepoint: string, bitmap: string)
    requires |Split(line, ':')| >= 2
    requires codepoint == Split(line, ':')[0] && bitmap == Split(line, ':')[1]
    requires |bitmap| / 4 == 8 || |bitmap| / 4 == 16
    ensures var width := |bitmap| / 4;
            var rowWidth := width / 4;
            LineEntry(line) == Ok(EntryHead(codepoint, width)
                                  + RowsText(RowWindows(bitmap, rowWidth, |bitmap| / rowWidth), rowWidth == 2)
                                  + EntryTail)
  {
  }

  lemma AppendAssoc(a: string, b: string, c: string)
    ensures a + b + c == a + (b + c)
  {
  }

  /** What the row loop appends is the row literal. */
  lemma AppendRowLiteral(prefix: string, row: string, halfWidth: bool, text: string)
    requires text == if halfWidth then prefix + "0x" + row + "00, " else prefix + "0x" + row + ", "
    ensures text == prefix + RowLiteral(row, halfWidth)
  {
  }

  /** One more pass of the line loop appends the next line's entry. */
  lemma EntriesForStep(lines: seq<string>, n: nat)
    requires n < |lines|
    ensures EntriesFor(lines[..n + 1]) == AppendEntries(EntriesFor(lines[..n]), LineEntry(lines[n]))
  {
    assert LineEntries(lines[..n + 1])[..n] == LineEntries(lines[..n]);
  }

  // ---------------------------------------------------------------------
  // Properties of a whole file

  /** The concatenation succeeds exactly when every part does. */
  lemma {:induction false} ConcatEntriesAllOk(results: seq<Result<string, IoError>>)
    ensures ConcatEntries(results).Ok? <==> forall i :: 0 <= i < |results| ==> results[i].Ok?
  {
    if results != [] {
      var init := results[..|results| - 1];
      ConcatEntriesAllOk(init);
      assert results == init + [results[|results| - 1]];
    }
  }

  /** A file is accepted exactly when every one of its lines is; one
      malformed line makes the whole result the malformed-file error. */
  lemma EntriesForAllOk(lines: seq<string>)
    ensures EntriesFor(lines).Ok? <==> forall i :: 0 <= i < |lines| ==> ParseLine(lines[i]).Ok?
    ensures EntriesFor(lines).Err? ==> EntriesFor(lines) == Err(CorruptFileErr)
  {
    var results := LineEntries(lines);
    forall i | 0 <= i < |lines|
      ensures results[i] == LineEntry(lines[i])
    {
    }
    ConcatEntriesAllOk(results);
    ConcatEntriesError(results);
    if EntriesFor(lines).Err? {
      assert EntriesFor(lines).error == CorruptFileErr;
    }
  }

  /** The concatenation fails only with an error of one of its parts. */
  lemma {:induction false} ConcatEntriesError(results: seq<Result<string, IoError>>)
    requires forall i :: 0 <= i < |results| ==> results[i].Err? ==> results[i].error == CorruptFileErr
    ensures ConcatEntries(results).Err? ==> ConcatEntries(results).error == CorruptFileErr
  {
    if results != [] {
      ConcatEntriesError(results[..|results| - 1]);
    }
  }

  lemma AppendEntriesAssoc(x: Result<string, IoError>, y: Result<string, IoError>, z: Result<string, IoError>)
    ensures AppendEntries(AppendEntries(x, y), z) == AppendEntries(x, AppendEntries(y, z))
  {
    if x.Ok? && y.Ok? && z.Ok? {
      assert x.value + y.value + z.value == x.value + (y.value + z.value);
    }
  }

  /** Concatenating two runs of results gives the concatenation of each. */
  lemma {:induction false} ConcatEntriesAppend(x: seq<Result<string, IoError>>, y: seq<Result<string, IoError>>)
    ensures ConcatEntries(x + y) == AppendEntries(ConcatEntries(x), ConcatEntries(y))
    decreases |y|
  {
    if y == [] {
      assert x + y == x;
      if ConcatEntries(x).Ok? {
        assert ConcatEntries(x).value + "" == ConcatEntries(x).value;
      }
    } else {
      var init := y[..|y| - 1];
      var last := y[|y| - 1];
      ConcatEntriesAppend(x, init);
      assert (x + y)[..|x + y| - 1] == x + init;
      AppendEntriesAssoc(ConcatEntries(x), ConcatEntries(init), last);
    }
  }

  /** The entries of two line sequences are those of the lines of both read
      as one file: concatenated in order, or the first error. */
  lemma EntriesForAppend(a: seq<string>, b: seq<string>)
    ensures EntriesFor(a + b) == AppendEntries(EntriesFor(a), EntriesFor(b))
  {
    assert LineEntries(a + b) == LineEntries(a) + LineEntries(b);
    ConcatEntriesAppend(LineEntries(a), LineEntries(b));
  }

  // ---------------------------------------------------------------------
  // Properties of one line

  /** A line without `:` is malformed. */
  lemma MissingColonIsMalformed(line: string)
    requires ':' !in line
    ensures ParseLine(line) == Err(CorruptFileErr)
  {
  }

  /** A line is accepted exactly when it has a `:` and the text after it
      (up to any second `:`) is 32 to 35 or 64 to 67 characters long:
      the width `length / 4` must be 8 or 16. */
  lemma ParseLineAccepts(line: string)
    ensures ParseLine(line).Ok?
        <==> ':' in line && (var len := |Split(line, ':')[1]|; 32 <= len <= 35 || 64 <= len <= 67)
  {
  }

  /** Only the first two pieces of a line matter: the codepoint is copied as
      written (it is not checked to be hexadecimal), the bitmap is the text
      between the first and second `:`, and anything after a second `:` is
      ignored. */
  lemma ParseLineFields(codepoint: string, bitmap: string, tail: string)
    requires ':' !in codepoint && ':' !in bitmap
    ensures ParseLine(codepoint + ":" + bitmap) == ParseFields(codepoint, bitmap)
    ensures ParseLine(codepoint + ":" + bitmap + ":" + tail) == ParseFields(codepoint, bitmap)
  {
    SplitTwoPieces(codepoint, bitmap);
    SplitThreePieces(codepoint, bitmap, tail);
  }

  lemma SplitThreePieces(codepoint: string, bitmap: string, tail: string)
    requires ':' !in codepoint && ':' !in bitmap
    ensures var fields := Split(codepoint + ":" + bitmap + ":" + tail, ':');
            |fields| >= 2 && fields[0] == codepoint && fields[1] == bitmap
  {
    var rest := bitmap + [':'] + tail;
    assert codepoint + ":" + bitmap + ":" + tail == codepoint + [':'] + rest;
    SplitAtFirst(codepoint, rest, ':');
    SplitAtFirst(bitmap, tail, ':');
    assert Split(rest, ':')[0] == bitmap;
  }

  lemma SplitTwoPieces(codepoint: string, bitmap: string)
    requires ':' !in codepoint && ':' !in bitmap
    ensures Split(codepoint + ":" + bitmap, ':') == [codepoint, bitmap]
  {
    SplitAtFirst(codepoint, bitmap, ':');
    assert codepoint + ":" + bitmap == codepoint + [':'] + bitmap;
  }

  /** The parsed line keeps the codepoint text, has width `length / 4` and
      `length / rowWidth` rows: 16 for every accepted bitmap length except
      34 and 35, which give 17 half-width rows. */
  lemma RowCount(codepoint: string, bitmap: string)
    requires ParseFields(codepoint, bitmap).Ok?
    ensures var e := ParseFields(codepoint, bitmap).value;
            e.codepoint == codepoint && e.width == |bitmap| / 4
            && |e.rows| == |bitmap| / (e.width / 4)
            && (|e.rows| == 16 <==> |bitmap| != 34 && |bitmap| != 35)
  {
  }

  /** Row `i` starts at character `i` of the bitmap: each row window repeats
      all but the first character of the one before it, instead of the rows
      following each other. */
  lemma RowWindowsOverlap(codepoint: string, bitmap: string, i: nat)
    requires ParseFields(codepoint, bitmap).Ok?
    requires i + 1 < |ParseFields(codepoint, bitmap).value.rows|
    ensures var e := ParseFields(codepoint, bitmap).value;
            var rowWidth := e.width / 4;
            |e.rows[i]| == |e.rows[i + 1]| == rowWidth
            && e.rows[i] == bitmap[i..i + rowWidth] && e.rows[i][1..] == e.rows[i + 1][..rowWidth - 1]
  {
    var e := ParseFields(codepoint, bitmap).value;
    var rowWidth := e.width / 4;
    RowWindowsAt(bitmap, rowWidth, |bitmap| / rowWidth);
    assert bitmap[i..i + rowWidth][1..] == bitmap[i + 1..i + rowWidth];
  }

  /** Every emitted row is `0x` and its digits followed by `, `; a half-width
      row's digits are the two bitmap characters followed by `00`, a
      full-width row's are the four bitmap characters unchanged. */
  lemma RowLiteralShape(codepoint: string, bitmap: string, k: nat)
    requires ParseFields(codepoint, bitmap).Ok?
    requires k < |ParseFields(codepoint, bitmap).value.rows|
    ensures var e := ParseFields(codepoint, bitmap).value;
            var lit := RowLiteral(e.rows[k], e.width == 8);
            |lit| == 8 && lit[..2] == "0x" && lit[6..] == ", "
            && (if e.width == 8 then lit[2..6] == bitmap[k..k + 2] + "00" else lit[2..6] == bitmap[k..k + 4])
  {
    var e := ParseFields(codepoint, bitmap).value;
    var rowWidth := e.width / 4;
    RowWindowsAt(bitmap, rowWidth, |bitmap| / rowWidth);
    var row := bitmap[k..k + rowWidth];
    assert e.rows[k] == row;
    var digits := RowDigits(row, e.width == 8);
    assert |digits| == 4;
    var lit := HexPrefix + digits + RowSeparator;
    assert lit == RowLiteral(e.rows[k], e.width == 8);
    assert lit[2..6] == digits;
  }

  /** A row literal is 8 characters, with the row's own characters right
      after the `0x`. */
  lemma RowLiteralDigits(row: string, halfWidth: bool)
    requires |row| == RowChars(halfWidth)
    ensures var lit := RowLiteral(row, halfWidth);
            |lit| == 8 && lit[2..2 + RowChars(halfWidth)] == row
  {
    var lit := RowLiteral(row, halfWidth);
    assert lit == HexPrefix + (RowDigits(row, halfWidth) + RowSeparator);
    SliceOfAppend(HexPrefix, RowDigits(row, halfWidth) + RowSeparator, 2, 2 + |row|);
    assert (RowDigits(row, halfWidth) + RowSeparator)[..|row|] == row;
  }

  /** Reads the row texts back out of emitted row literals. */
  function ReadRows(t: string, halfWidth: bool): seq<string>
    decreases |t|
  {
    if |t| < 8 then []
    else ReadRows(t[..|t| - 8], halfWidth) + [t[|t| - 6..|t| - 6 + RowChars(halfWidth)]]
  }

  /** Emitting the rows loses nothing: they can be read back from the text. */
  lemma {:induction false} ReadRowsText(rows: seq<string>, halfWidth: bool)
    requires RowsFit(rows, halfWidth)
    ensures ReadRows(RowsText(rows, halfWidth), halfWidth) == rows
  {
    if rows != [] {
      var init := rows[..|rows| - 1];
      var last := rows[|rows| - 1];
      assert RowsFit(init, halfWidth);
      ReadRowsText(init, halfWidth);
      assert rows == init + [last];
      ReadRowsTextStep(init, last, halfWidth);
    }
  }

  /** Emitting one more row adds it to what is read back. */
  lemma ReadRowsTextStep(init: seq<string>, last: string, halfWidth: bool)
    requires RowsFit(init, halfWidth) && |last| == RowChars(halfWidth)
    ensures ReadRows(RowsText(init + [last], halfWidth), halfWidth)
         == ReadRows(RowsText(init, halfWidth), halfWidth) + [last]
  {
    var prefix := RowsText(init, halfWidth);
    var lit := RowLiteral(last, halfWidth);
    assert (init + [last])[..|init|] == init;
    assert RowsText(init + [last], halfWidth) == prefix + lit;
    RowLiteralDigits(last, halfWidth);
    ReadRowsAppend(prefix, lit, halfWidth);
  }

  /** Reading one more 8-character literal adds the row it holds. */
  lemma ReadRowsAppend(prefix: string, lit: string, halfWidth: bool)
    requires |prefix| % 8 == 0 && |lit| == 8
    ensures ReadRows(prefix + lit, halfWidth) == ReadRows(prefix, halfWidth) + [lit[2..2 + RowChars(halfWidth)]]
  {
    var t := prefix + lit;
    assert t[..|t| - 8] == prefix;
    SliceOfAppend(prefix, lit, |t| - 6, |t| - 6 + RowChars(halfWidth));
  }

  /** The start of one entry: the codepoint as written, then
      ` => { width: `, the width in decimal and `, bitmap: [`. The codepoint
      and the width can be read back from it. */
  lemma EntryHeadLayout(codepoint: string, width: nat)
    ensures var h := EntryHead(codepoint, width);
            var w := DecimalText(width);
            |h| == |codepoint| + 24 + |w|
            && h[..|codepoint|] == codepoint
            && h[|codepoint|..|codepoint| + 13] == " => { width: "
            && DecimalValue(h[|codepoint| + 13..|h| - 11]) == width
            && h[|h| - 11..] == ", bitmap: ["
  {
    var h := EntryHead(codepoint, width);
    var w := DecimalText(width);
    var start := codepoint + (Arrow + WidthLabel);
    assert Arrow + WidthLabel == " => { width: ";
    assert h == start + (w + BitmapLabel);
    SliceOfAppend(start, w + BitmapLabel, |start|, |start| + |w|);
    SliceOfAppend(codepoint, Arrow + WidthLabel, |codepoint|, |start|);
    assert h == (start + w) + BitmapLabel;
    DecimalRoundTrip(width);
  }

  /** The layout of one entry: its head, then the 8-character row
      literals, then `] },` and a line break. Every row can be read back
      from it. */
  lemma EntryTextLayout(e: HexLine)
    requires RowsFit(e.rows, e.width == 8)
    ensures var t := EntryText(e);
            var h := EntryHead(e.codepoint, e.width);
            |t| == |h| + 8 * |e.rows| + 5
            && t[..|h|] == h
            && ReadRows(t[|h|..|t| - 5], e.width == 8) == e.rows
            && t[|t| - 5..] == "] },\n"
  {
    var h := EntryHead(e.codepoint, e.width);
    var rows := RowsText(e.rows, e.width == 8);
    assert EntryText(e) == h + rows + EntryTail;
    ThreeParts(h, rows, EntryTail);
    ReadRowsText(e.rows, e.width == 8);
  }

  /** Every row of a parsed line has the length its width calls for. */
  lemma ParsedRowsFit(codepoint: string, bitmap: string)
    requires ParseFields(codepoint, bitmap).Ok?
    ensures var e := ParseFields(codepoint, bitmap).value;
            RowsFit(e.rows, e.width == 8)
  {
    var e := ParseFields(codepoint, bitmap).value;
    RowWindowsAt(bitmap, e.width / 4, |e.rows|);
  }

  /** The entry written for an accepted line starts with its head, ends with
      `] },` and a line break, and every parsed row can be read back from
      the text in between. */
  lemma LineEntryLayout(line: string)
    requires ParseLine(line).Ok?
    ensures var e := ParseLine(line).value;
            var t := LineEntry(line).value;
            var h := EntryHead(e.codepoint, e.width);
            |t| == |h| + 8 * |e.rows| + 5
            && t[..|h|] == h
            && ReadRows(t[|h|..|t| - 5], e.width == 8) == e.rows
            && t[|t| - 5..] == "] },\n"
  {
    var fields := Split(line, ':');
    ParsedRowsFit(fields[0], fields[1]);
    EntryTextLayout(ParseLine(line).value);
  }

  /** The three parts of a concatenation can be cut back out of it. */
  lemma ThreeParts(x: string, y: string, z: string)
    ensures var t := x + y + z;
            |t| == |x| + |y| + |z| && t[..|x|] == x && t[|x|..|t| - |z|] == y && t[|t| - |z|..] == z
  {
  }

  /** A slice that lies within the second part of a concatenation. */
  lemma SliceOfAppend(x: string, y: string, i: nat, j: nat)
    requires |x| <= i <= j <= |x| + |y|
    ensures (x + y)[i..j] == y[i - |x|..j - |x|]
  {
  }

  // ---------------------------------------------------------------------
  // What an entry denotes as a `FontChar`

  /** The 16-bit value of one emitted row literal. */
  function RowValue(row: string, halfWidth: bool): (v: u16)
    requires IsHex(row) && |row| == RowChars(halfWidth)
  {
    var digits := RowDigits(row, halfWidth);
    assert IsHex(digits) && |digits| == 4 by {
      if halfWidth { AppendZeroByte(row); }
    }
    assert Pow16(4) == 0x1_0000;
    HexValue(digits)
  }

  /** The `FontChar` an emitted entry denotes once the generated table is
      compiled, or `None` when the entry is not a valid `FontChar`
      literal: the bitmap array must have exactly 16 rows of hex digits. */
  function EntryFontChar(e: HexLine): Option<FontChar>
  {
    var halfWidth := e.width == 8;
    if e.width < 0x100 && |e.rows| == 16
       && forall i :: 0 <= i < 16 ==> IsHex(e.rows[i]) && |e.rows[i]| == RowChars(halfWidth)
    then Some(FontChar(e.width, seq(16, i requires 0 <= i < 16 => RowValue(e.rows[i], halfWidth))))
    else None
  }

  /** Every accepted hex bitmap except those of 34 or 35 digits yields a
      valid `FontChar` of width 8 or 16. Row `i` holds the value of the
      bitmap window starting at digit `i`; for a half-width glyph that value
      fills the high byte and the low byte is zero. */
  lemma HexBitmapFontChar(codepoint: string, bitmap: string)
    requires IsHex(bitmap) && ParseFields(codepoint, bitmap).Ok?
    requires |bitmap| != 34 && |bitmap| != 35
    ensures var r := ParseFields(codepoint, bitmap);
            r.Ok? && EntryFontChar(r.value).Some?
            && var fc := EntryFontChar(r.value).value;
               fc.width == |bitmap| / 4
               && forall i :: 0 <= i < 16 ==>
                    if fc.width == 8
                    then fc.bitmap[i] == HexValue(bitmap[i..i + 2]) * 0x100 && fc.bitmap[i] % 0x100 == 0
                    else fc.bitmap[i] == HexValue(bitmap[i..i + 4])
  {
    var e := ParseFields(codepoint, bitmap).value;
    var halfWidth := e.width == 8;
    assert |e.rows| == 16;
    RowWindowsAt(bitmap, e.width / 4, 16);
    forall i | 0 <= i < 16
      ensures e.rows[i] == bitmap[i..i + RowChars(halfWidth)]
      ensures IsHex(e.rows[i]) && |e.rows[i]| == RowChars(halfWidth)
    {
    }
    var fc := EntryFontChar(e).value;
    forall i | 0 <= i < 16 && halfWidth
      ensures fc.bitmap[i] == HexValue(bitmap[i..i + 2]) * 0x100 && fc.bitmap[i] % 0x100 == 0
    {
      AppendZeroByte(e.rows[i]);
    }
  }

  /** A 34- or 35-digit bitmap passes the width check but yields 17 rows,
      which is not a valid `FontChar` (its bitmap holds exactly 16). */
  lemma SeventeenRowsNoFontChar(codepoint: string, bitmap: string)
    requires |bitmap| == 34 || |bitmap| == 35
    ensures ParseFields(codepoint, bitmap).Ok?
    ensures |ParseFields(codepoint, bitmap).value.rows| == 17
    ensures EntryFontChar(ParseFields(codepoint, bitmap).value) == None
  {
  }

  /** The overlap on a concrete half-width bitmap whose bytes are 01, 02,
      ..., 10: the second row window is `10` (characters 1 and 2), not the
      second byte `02`, and the third is `02`. */
  lemma OverlapExample()
    ensures var rows := RowWindows("0102030405060708090A0B0C0D0E0F10", 2, 16);
            rows[0] == "01" && rows[1] == "10" && rows[2] == "02"
  {
    var bitmap := "0102030405060708090A0B0C0D0E0F10";
    RowWindowsAt(bitmap, 2, 16);
    assert bitmap[0] == '0' && bitmap[1] == '1' && bitmap[2] == '0' && bitmap[3] == '2';
    assert bitmap[0..2] == "01";
    assert bitmap[1..3] == "10";
    assert bitmap[2..4] == "02";
  }
}
