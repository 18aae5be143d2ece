/**
 * Character-grid helpers of the game's user interface: the offset of a
 * screen cell, the decimal digits of a byte, and the writes into screen and
 * colour memory that print text, fill rectangles and draw boxes.
 *
 * Screen and colour memory are byte arrays handed to each operation; an
 * operation requires the cells it writes to lie inside them.
 */
module Ui {

  /** An unsigned 8-bit value (`uint8_t`). */
  type Byte = x: int | 0 <= x < 256

  /** Columns per text row (SCREEN_WIDTH). */
  const ScreenWidth: nat := 40

  /** The largest offset `ScreenOffset` can produce from two bytes. */
  const MaxScreenOffset: nat := 255 * ScreenWidth + 255

  /** Screen codes of the box-drawing characters. */
  const CornerTopLeft: Byte := 0x70
  const CornerTopRight: Byte := 0x6E
  const CornerBottomLeft: Byte := 0x6D
  const CornerBottomRight: Byte := 0x7D
  const HorizontalLine: Byte := 0x40
  const VerticalLine: Byte := 0x5D

  /**
   * `screen_offset`: the row-major offset of column `x` in row `y`, computed
   * in 16-bit unsigned arithmetic. No pair of bytes makes it wrap, and for a
   * column on the screen the offset decodes back to the row and the column.
   */
  function ScreenOffset(x: Byte, y: Byte): (r: nat)
    ensures r == y * ScreenWidth + x
    ensures r <= MaxScreenOffset
    ensures x < ScreenWidth ==> r / ScreenWidth == y && r % ScreenWidth == x
  {
    var v := y * ScreenWidth + x;
    assert v < 0x1_0000;
    v % 0x1_0000
  }

  // ---------------------------------------------------------------------
  // Decimal digits of `ui_print_number`
  // ---------------------------------------------------------------------

  predicate IsDigit(c: char) {
    '0' <= c <= '9'
  }

  predicate AllDigits(s: seq<char>) {
    forall k :: 0 <= k < |s| ==> IsDigit(s[k])
  }

  function DigitChar(d: nat): (c: char)
    requires d < 10
  {
    ('0' as int + d) as char
  }

  function DigitValue(c: char): int {
    c as int - '0' as int
  }

  /** The value of a string of decimal digits, most significant first. */
  function ParseDecimal(s: seq<char>): nat
    requires AllDigits(s)
  {
    if s == [] then 0 else ParseDecimal(s[..|s| - 1]) * 10 + DigitValue(s[|s| - 1])
  }

  /** `ParseDecimal` written out for strings of one to three digits. */
  lemma ParseDecimalShort(s: seq<char>)
    requires AllDigits(s) && 1 <= |s| <= 3
    ensures |s| == 1 ==> ParseDecimal(s) == DigitValue(s[0])
    ensures |s| == 2 ==> ParseDecimal(s) == 10 * DigitValue(s[0]) + DigitValue(s[1])
    ensures |s| == 3 ==> ParseDecimal(s) == 100 * DigitValue(s[0]) + 10 * DigitValue(s[1]) + DigitValue(s[2])
  {
    assert s[..1][..0] == [];
    if |s| >= 2 {
      assert s[..2][..1] == s[..1];
    }
    if |s| == 3 {
      assert s[..3][..2] == s[..2];
    }
  }

  /** A digit character reads back as its digit. */
  lemma DigitCharValue(d: nat)
    requires d < 10
    ensures IsDigit(DigitChar(d)) && DigitValue(DigitChar(d)) == d
  {
  }

  /** The hundreds, tens and units of a byte. */
  lemma ByteDigits(num: Byte)
    ensures num / 100 < 3 && (num % 100) / 10 < 10 && num % 10 < 10
    ensures num == 100 * (num / 100) + 10 * ((num % 100) / 10) + num % 10
    ensures (num % 100) % 10 == num % 10
    ensures num < 100 ==> num % 100 == num
  {
  }

  /**
   * The characters `ui_print_number` puts into its buffer for `num`: a
   * hundreds digit when `num >= 100`, a tens digit when `num >= 10` or a
   * hundreds digit was written, and always a units digit.
   */
  function DecimalDigits(num: Byte): (r: seq<char>)
    ensures 1 <= |r| <= 3 && AllDigits(r)
  {
    ByteDigits(num);
    var hundreds := if num >= 100 then [DigitChar(num / 100)] else [];
    var n := if num >= 100 then num % 100 else num;
    var tens := if n >= 10 || |hundreds| > 0 then [DigitChar(n / 10)] else [];
    var units := if n >= 10 || |hundreds| > 0 then n % 10 else n;
    hundreds + tens + [DigitChar(units)]
  }

  /**
   * The digits of a byte are one to three decimal digits without a leading
   * zero (except "0" itself), three exactly from 100, one exactly below 10,
   * and they read back as the byte.
   */
  lemma DecimalDigitsRoundTrip(num: Byte)
    ensures var r := DecimalDigits(num);
      && 1 <= |r| <= 3
      && AllDigits(r)
      && (|r| > 1 ==> r[0] != '0')
      && (|r| == 1 <==> num < 10)
      && (|r| == 3 <==> num >= 100)
      && ParseDecimal(r) == num
  {
    var h, t, u := num / 100, (num % 100) / 10, num % 10;
    ByteDigits(num);
    DigitCharValue(h);
    DigitCharValue(t);
    DigitCharValue(u);
    var r := DecimalDigits(num);
    if num >= 100 {
      assert r == [DigitChar(h), DigitChar(t), DigitChar(u)];
    } else if num >= 10 {
      assert num / 10 == t;
      assert r == [DigitChar(t), DigitChar(u)];
    } else {
      assert r == [DigitChar(u)];
    }
    ParseDecimalShort(r);
  }

  /**
   * The converse of `DecimalDigits`: every digit string of one to three
   * characters without a leading zero whose value is a byte is the string
   * `ui_print_number` produces for that value. With the round trip in
   * `DecimalDigits` this makes the encoding a bijection onto such strings.
   */
  lemma DecimalDigitsCanonical(s: seq<char>)
    requires 1 <= |s| <= 3 && AllDigits(s)
    requires |s| > 1 ==> s[0] != '0'
    requires ParseDecimal(s) < 256
    ensures DecimalDigits(ParseDecimal(s) as Byte) == s
  {
    var n := ParseDecimal(s) as Byte;
    DecimalDigitsRoundTrip(n);
    CanonicalLength(s);
    SameValueSameDigits(DecimalDigits(n), s);
  }

  /** A digit string without a leading zero has three digits exactly from 100 and one exactly below 10. */
  lemma CanonicalLength(s: seq<char>)
    requires 1 <= |s| <= 3 && AllDigits(s)
    requires |s| > 1 ==> s[0] != '0'
    ensures |s| == 1 <==> ParseDecimal(s) < 10
    ensures |s| == 3 <==> ParseDecimal(s) >= 100
  {
    ParseDecimalShort(s);
  }

  /** Decimal notation of a fixed length is unique: equal values mean equal digits. */
  lemma SameValueSameDigits(r: seq<char>, s: seq<char>)
    requires AllDigits(r) && AllDigits(s) && 1 <= |r| == |s| <= 3
    requires ParseDecimal(r) == ParseDecimal(s)
    ensures r == s
  {
    ParseDecimalShort(r);
    ParseDecimalShort(s);
    var last := |s| - 1;
    assert DigitValue(r[last]) == DigitValue(s[last]);
    if |s| >= 2 {
      assert DigitValue(r[last - 1]) == DigitValue(s[last - 1]);
    }
    if |s| == 3 {
      assert DigitValue(r[0]) == DigitValue(s[0]);
    }
    forall k | 0 <= k < |s| ensures r[k] == s[k] {
      assert DigitValue(r[k]) == DigitValue(s[k]);
    }
  }

  // ---------------------------------------------------------------------
  // Text printing
  // ---------------------------------------------------------------------

  /**
   * Length of the NUL-terminated string held in `text`: the index of its
   * first zero byte, or the whole sequence when it holds none.
   */
  function StrLen(text: seq<Byte>): (n: nat)
    ensures n <= |text|
    ensures forall k :: 0 <= k < n ==> text[k] != 0
    ensures n < |text| ==> text[n] == 0
  {
    if text == [] || text[0] == 0 then 0 else 1 + StrLen(text[1..])
  }

  /** Number of characters `ui_print_at_color` writes: the string, clipped at the right screen edge. */
  function ClippedLength(text: seq<Byte>, x: Byte): nat {
    if x >= ScreenWidth then 0
    else if StrLen(text) <= ScreenWidth - x then StrLen(text)
    else ScreenWidth - x
  }

  /**
   * `ui_print_at_color`: writes the characters of `text` from column `x` of
   * row `y` onwards, with colour `color`, stopping at the terminating NUL or
   * at the right edge of the screen, whichever comes first. Exactly the
   * written cells change, in both memories.
   */
  method PrintAtColor(screen: array<Byte>, colors: array<Byte>, x: Byte, y: Byte, text: seq<Byte>, color: Byte)
    requires screen != colors
    requires ScreenOffset(x, y) + ClippedLength(text, x) <= screen.Length
    requires ScreenOffset(x, y) + ClippedLength(text, x) <= colors.Length
    modifies screen, colors
    ensures forall k :: 0 <= k < screen.Length ==>
      screen[k] == if ScreenOffset(x, y) <= k < ScreenOffset(x, y) + ClippedLength(text, x)
                   then text[k - ScreenOffset(x, y)] else old(screen[k])
    ensures forall k :: 0 <= k < colors.Length ==>
      colors[k] == if ScreenOffset(x, y) <= k < ScreenOffset(x, y) + ClippedLength(text, x)
                   then color else old(colors[k])
  {
    var offset := ScreenOffset(x, y);
    ghost var n := ClippedLength(text, x);
    var i := 0;
    while i < |text| && text[i] != 0 && x + i < ScreenWidth
      invariant 0 <= i <= n
      invariant forall k :: 0 <= k < screen.Length ==>
        screen[k] == if offset <= k < offset + i then text[k - offset] else old(screen[k])
      invariant forall k :: 0 <= k < colors.Length ==>
        colors[k] == if offset <= k < offset + i then color else old(colors[k])
    {
      screen[offset + i] := text[i];
      colors[offset + i] := color;
      i := i + 1;
    }
  }

  // ---------------------------------------------------------------------
  // Rectangles: a rectangle is a sequence of row starts, each row `w` cells
  // ---------------------------------------------------------------------

  /** Cell `k` lies in one of the rows starting at `rows`, each `w` cells wide. */
  predicate InRows(k: int, rows: seq<nat>, w: nat)
  {
    |rows| > 0 &&
    (InRows(k, rows[..|rows| - 1], w) || rows[|rows| - 1] <= k < rows[|rows| - 1] + w)
  }

  /** `InRows` holds exactly when some row of the rectangle contains the cell. */
  lemma {:induction false} InRowsIff(k: int, rows: seq<nat>, w: nat)
    ensures InRows(k, rows, w) <==> exists j :: 0 <= j < |rows| && rows[j] <= k < rows[j] + w
  {
    if |rows| > 0 {
      var front := rows[..|rows| - 1];
      InRowsIff(k, front, w);
      if InRows(k, rows, w) {
        if InRows(k, front, w) {
          var j :| 0 <= j < |front| && front[j] <= k < front[j] + w;
          assert rows[j] == front[j];
        }
      } else {
        forall j | 0 <= j < |rows| ensures !(rows[j] <= k < rows[j] + w) {
          if j < |rows| - 1 {
            assert rows[j] == front[j];
          }
        }
      }
    }
  }

  /** Each row start lies inside the rectangle, and so does every cell of its row. */
  lemma InRowsAt(rows: seq<nat>, w: nat, j: nat, i: nat)
    requires j < |rows| && i < w
    ensures InRows(rows[j] + i, rows, w)
  {
    InRowsIff(rows[j] + i, rows, w);
  }

  /** Every row of the rectangle ends inside memory of length `len`. */
  predicate RowsFit(rows: seq<nat>, w: nat, len: nat) {
    forall j :: 0 <= j < |rows| ==> rows[j] + w <= len
  }

  /** Memory `s` with every cell of the rectangle set to `v`. */
  function Paint(s: seq<Byte>, rows: seq<nat>, w: nat, v: Byte): (r: seq<Byte>)
    ensures |r| == |s|
  {
    seq(|s|, k requires 0 <= k < |s| => if InRows(k, rows, w) then v else s[k])
  }

  /**
   * What painting does to one cell: a cell of the rectangle holds the
   * paint, a cell outside every row keeps its old value.
   */
  lemma PaintCell(s: seq<Byte>, rows: seq<nat>, w: nat, v: Byte, k: nat)
    requires k < |s|
    ensures (exists j :: 0 <= j < |rows| && rows[j] <= k < rows[j] + w) ==> Paint(s, rows, w, v)[k] == v
    ensures (forall j :: 0 <= j < |rows| ==> !(rows[j] <= k < rows[j] + w)) ==> Paint(s, rows, w, v)[k] == s[k]
  {
    InRowsIff(k, rows, w);
  }

  /** Row starts of `ui_fill_rect`: row `j` is addressed as `screen_offset(x, y + j)`, whose `uint8_t` parameter truncates `y + j`. */
  function FillRows(x: Byte, y: Byte, h: Byte): seq<nat> {
    seq<nat>(h, j requires 0 <= j < h => ScreenOffset(x, (y + j) % 256))
  }

  /**
   * `ui_fill_rect`: sets every cell of the `w` by `h` rectangle at column `x`,
   * row `y` to character `ch` and colour `color`, and nothing outside it.
   */
  method FillRect(screen: array<Byte>, colors: array<Byte>, x: Byte, y: Byte, w: Byte, h: Byte, ch: Byte, color: Byte)
    requires screen != colors
    requires RowsFit(FillRows(x, y, h), w, screen.Length)
    requires RowsFit(FillRows(x, y, h), w, colors.Length)
    modifies screen, colors
    ensures screen[..] == Paint(old(screen[..]), FillRows(x, y, h), w, ch)
    ensures colors[..] == Paint(old(colors[..]), FillRows(x, y, h), w, color)
  {
    ghost var rows := FillRows(x, y, h);
    var j := 0;
    while j < h
      invariant 0 <= j <= h
      invariant forall k :: 0 <= k < screen.Length ==>
        screen[k] == if InRows(k, rows[..j], w) then ch else old(screen[k])
      invariant forall k :: 0 <= k < colors.Length ==>
        colors[k] == if InRows(k, rows[..j], w) then color else old(colors[k])
    {
      var offset := ScreenOffset(x, (y + j) % 256);
      assert offset == rows[j];
      assert rows[..j + 1][..j] == rows[..j];
      FillRow(screen, colors, offset, w, ch, color);
      j := j + 1;
    }
    assert rows[..h] == rows;
  }

  /** The inner loop of `ui_fill_rect`: the `w` cells from `offset` on take character `ch` and colour `color`. */
  method FillRow(screen: array<Byte>, colors: array<Byte>, offset: nat, w: Byte, ch: Byte, color: Byte)
    requires screen != colors && offset + w <= screen.Length && offset + w <= colors.Length
    modifies screen, colors
    ensures forall k :: 0 <= k < screen.Length ==> screen[k] == if offset <= k < offset + w then ch else old(screen[k])
    ensures forall k :: 0 <= k < colors.Length ==> colors[k] == if offset <= k < offset + w then color else old(colors[k])
  {
    var i := 0;
    while i < w
      invariant 0 <= i <= w
      invariant forall k :: 0 <= k < screen.Length ==> screen[k] == if offset <= k < offset + i then ch else old(screen[k])
      invariant forall k :: 0 <= k < colors.Length ==> colors[k] == if offset <= k < offset + i then color else old(colors[k])
    {
      screen[offset + i] := ch;
      colors[offset + i] := color;
      i := i + 1;
    }
  }

  /** `ui_set_char`: exactly the cell at column `x`, row `y` of screen memory becomes `ch`. */
  method SetChar(screen: array<Byte>, x: Byte, y: Byte, ch: Byte)
    requires ScreenOffset(x, y) < screen.Length
    modifies screen
    ensures screen[..] == old(screen[..])[ScreenOffset(x, y) := ch]
    ensures forall k :: 0 <= k < screen.Length ==> screen[k] == if k == ScreenOffset(x, y) then ch else old(screen[k])
  {
    screen[ScreenOffset(x, y)] := ch;
  }

  /** `ui_set_color`: exactly the cell at column `x`, row `y` of colour memory becomes `color`. */
  method SetColor(colors: array<Byte>, x: Byte, y: Byte, color: Byte)
    requires ScreenOffset(x, y) < colors.Length
    modifies colors
    ensures colors[..] == old(colors[..])[ScreenOffset(x, y) := color]
  {
    colors[ScreenOffset(x, y)] := color;
  }

  // ---------------------------------------------------------------------
  // Boxes
  // ---------------------------------------------------------------------

  /** Offset of the cell `dx` columns right of and `dy` rows below column `x`, row `y`. */
  function Cell(x: nat, y: nat, dx: nat, dy: nat): nat {
    (y + dy) * ScreenWidth + x + dx
  }

  /** The box is at least two by two cells, lies within its rows of the screen and above row 256, so none of its coordinates wraps. */
  predicate BoxFits(x: Byte, y: Byte, w: Byte, h: Byte) {
    2 <= w && 2 <= h && x + w <= ScreenWidth && y + h <= 256
  }

  /** Row starts of the box's bounding rectangle. */
  function BoxRows(x: Byte, y: Byte, h: Byte): seq<nat> {
    seq<nat>(h, j requires 0 <= j < h => Cell(x, y, 0, j))
  }

  /**
   * The character the border leaves at column `dx`, row `dy` of a `w` by `h`
   * box whose cell held `before`: corners at the four corners, horizontal
   * lines along the top and bottom edges, vertical lines along the left and
   * right edges, and the old content inside.
   */
  function BoxGlyph(w: nat, h: nat, dx: nat, dy: nat, before: Byte): Byte {
    if dy == 0 then
      (if dx == 0 then CornerTopLeft else if dx == w - 1 then CornerTopRight else HorizontalLine)
    else if dy == h - 1 then
      (if dx == 0 then CornerBottomLeft else if dx == w - 1 then CornerBottomRight else HorizontalLine)
    else if dx == 0 || dx == w - 1 then VerticalLine
    else before
  }

  /**
   * Screen memory `s` with a box drawn at column `x`, row `y`: each cell is
   * located relative to the box's top-left cell, and the cells of the box
   * take their `BoxGlyph`.
   */
  function BoxDrawn(s: seq<Byte>, x: Byte, y: Byte, w: Byte, h: Byte): (r: seq<Byte>)
    ensures |r| == |s|
  {
    var base := Cell(x, y, 0, 0);
    seq(|s|, k requires 0 <= k < |s| =>
      if base <= k && (k - base) % ScreenWidth < w && (k - base) / ScreenWidth < h
      then BoxGlyph(w, h, (k - base) % ScreenWidth, (k - base) / ScreenWidth, s[k])
      else s[k])
  }

  /** In a box that fits, the cell `dx` columns right and `dy` rows down of the corner holds its glyph. */
  lemma BoxDrawnCell(s: seq<Byte>, x: Byte, y: Byte, w: Byte, h: Byte, dx: nat, dy: nat)
    requires BoxFits(x, y, w, h) && dx < w && dy < h && Cell(x, y, dx, dy) < |s|
    ensures BoxDrawn(s, x, y, w, h)[Cell(x, y, dx, dy)] == BoxGlyph(w, h, dx, dy, s[Cell(x, y, dx, dy)])
  {
    var r := Cell(x, y, dx, dy) - Cell(x, y, 0, 0);
    assert r == dy * ScreenWidth + dx;
    assert r / ScreenWidth == dy && r % ScreenWidth == dx;
  }

  /** Drawing a box that fits leaves every cell outside its bounding rectangle unchanged. */
  lemma BoxDrawnOutside(s: seq<Byte>, x: Byte, y: Byte, w: Byte, h: Byte, k: nat)
    requires BoxFits(x, y, w, h) && k < |s|
    requires !InRows(k, BoxRows(x, y, h), w)
    ensures BoxDrawn(s, x, y, w, h)[k] == s[k]
  {
    var base := Cell(x, y, 0, 0);
    if base <= k && (k - base) % ScreenWidth < w && (k - base) / ScreenWidth < h {
      var dy, dx := (k - base) / ScreenWidth, (k - base) % ScreenWidth;
      assert BoxRows(x, y, h)[dy] + dx == k;
      InRowsAt(BoxRows(x, y, h), w, dy, dx);
      assert false;
    }
  }

  /**
   * Screen memory `s` with a horizontal box edge `w` cells long from offset
   * `start`: corner `left`, then horizontal lines, then corner `right`.
   */
  function EdgeDrawn(s: seq<Byte>, start: nat, w: nat, left: Byte, right: Byte): (r: seq<Byte>)
    ensures |r| == |s|
  {
    seq(|s|, k requires 0 <= k < |s| =>
      if k == start then left
      else if k == start + w - 1 then right
      else if start < k < start + w - 1 then HorizontalLine
      else s[k])
  }

  /**
   * One horizontal edge of `ui_draw_box`: corner `left` at column `x`, a run
   * of horizontal lines, corner `right` at column `x + w - 1`, all in row
   * `y`, and nothing else changed.
   */
  method DrawEdge(screen: array<Byte>, x: Byte, y: Byte, w: Byte, left: Byte, right: Byte)
    requires 2 <= w && x + w <= ScreenWidth && ScreenOffset(x, y) + w <= screen.Length
    modifies screen
    ensures screen[..] == EdgeDrawn(old(screen[..]), ScreenOffset(x, y), w, left, right)
  {
    ghost var start, before := ScreenOffset(x, y), screen[..];
    SetChar(screen, x, y, left);
    var i := 1;
    while i < w - 1
      invariant 1 <= i <= w - 1
      invariant forall k :: 0 <= k < screen.Length ==>
        screen[k] == if k == start then left
                     else if start < k < start + i then HorizontalLine
                     else before[k]
    {
      var column := (x + i) % 256;
      assert column == x + i;
      SetChar(screen, column, y, HorizontalLine);
      i := i + 1;
    }
    var column := (x + w - 1) % 256;
    assert column == x + w - 1;
    SetChar(screen, column, y, right);
    ghost var r := EdgeDrawn(before, start, w, left, right);
    assert forall k :: 0 <= k < screen.Length ==> screen[k] == r[k];
  }

  /** Cell `k` is the first or last cell, in a box `w` wide, of one of the rows `1` to `last - 1` below row `y`. */
  predicate SideCell(k: int, x: Byte, y: Byte, w: Byte, last: nat) {
    1 < last && 1 <= w &&
    (SideCell(k, x, y, w, last - 1) || k == Cell(x, y, 0, last - 1) || k == Cell(x, y, w - 1, last - 1))
  }

  /** The side cells located relative to the box's top-left cell: rows `1` to `last - 1`, first or last column. */
  lemma {:induction false} SideCellIff(k: int, x: Byte, y: Byte, w: Byte, last: nat)
    requires 2 <= w && x + w <= ScreenWidth
    ensures var base := Cell(x, y, 0, 0);
      SideCell(k, x, y, w, last) <==>
        base <= k && 1 <= (k - base) / ScreenWidth < last &&
        ((k - base) % ScreenWidth == 0 || (k - base) % ScreenWidth == w - 1)
  {
    var base := Cell(x, y, 0, 0);
    if 1 < last {
      SideCellIff(k, x, y, w, last - 1);
      var i := last - 1;
      if k == Cell(x, y, 0, i) {
        assert k - base == i * ScreenWidth;
      } else if k == Cell(x, y, w - 1, i) {
        assert k - base == i * ScreenWidth + w - 1;
      } else if base <= k && (k - base) / ScreenWidth == i {
        var r := (k - base) % ScreenWidth;
        assert k - base == i * ScreenWidth + r;
      }
    }
  }

  /** Screen memory `s` with the side edges of a `w` by `h` box drawn. */
  function SidesDrawn(s: seq<Byte>, x: Byte, y: Byte, w: Byte, h: Byte): (r: seq<Byte>)
    ensures |r| == |s|
  {
    seq(|s|, k requires 0 <= k < |s| => if h >= 1 && SideCell(k, x, y, w, h - 1) then VerticalLine else s[k])
  }

  /** The side edges of `ui_draw_box`: vertical lines in columns `x` and `x + w - 1` of rows `y + 1` to `y + h - 2`, and nothing else changed. */
  method DrawSides(screen: array<Byte>, x: Byte, y: Byte, w: Byte, h: Byte)
    requires BoxFits(x, y, w, h) && Cell(x, y, w - 1, h - 1) < screen.Length
    modifies screen
    ensures screen[..] == SidesDrawn(old(screen[..]), x, y, w, h)
  {
    var i := 1;
    while i < h - 1
      invariant 1 <= i <= h - 1
      invariant forall k :: 0 <= k < screen.Length ==>
        screen[k] == if SideCell(k, x, y, w, i) then VerticalLine else old(screen[k])
    {
      var row, right := (y + i) % 256, (x + w - 1) % 256;
      assert row == y + i && right == x + w - 1;
      SetChar(screen, x, row, VerticalLine);
      SetChar(screen, right, row, VerticalLine);
      i := i + 1;
    }
  }

  /**
   * `ui_draw_box`: a box of at least two by two cells that fits on its rows
   * is drawn exactly as `BoxDrawn` says: border characters on its edges,
   * everything else unchanged.
   */
  method DrawBox(screen: array<Byte>, x: Byte, y: Byte, w: Byte, h: Byte)
    requires BoxFits(x, y, w, h) && Cell(x, y, w - 1, h - 1) < screen.Length
    modifies screen
    ensures screen[..] == BoxDrawn(old(screen[..]), x, y, w, h)
  {
    BoxAssembled(screen[..], x, y, w, h);
    DrawEdge(screen, x, y, w, CornerTopLeft, CornerTopRight);
    DrawSides(screen, x, y, w, h);
    DrawEdge(screen, x, (y + h - 1) % 256, w, CornerBottomLeft, CornerBottomRight);
  }

  /** The top edge, then the sides, then the bottom edge make up the box. */
  lemma BoxAssembled(s: seq<Byte>, x: Byte, y: Byte, w: Byte, h: Byte)
    requires BoxFits(x, y, w, h)
    ensures EdgeDrawn(SidesDrawn(EdgeDrawn(s, ScreenOffset(x, y), w, CornerTopLeft, CornerTopRight), x, y, w, h),
                      ScreenOffset(x, (y + h - 1) % 256), w, CornerBottomLeft, CornerBottomRight)
         == BoxDrawn(s, x, y, w, h)
  {
    var top, bottom := ScreenOffset(x, y), ScreenOffset(x, (y + h - 1) % 256);
    assert top == Cell(x, y, 0, 0) && bottom == Cell(x, y, 0, h - 1);
    var s1 := EdgeDrawn(s, top, w, CornerTopLeft, CornerTopRight);
    var s2 := SidesDrawn(s1, x, y, w, h);
    var s3 := EdgeDrawn(s2, bottom, w, CornerBottomLeft, CornerBottomRight);
    var r := BoxDrawn(s, x, y, w, h);
    forall k | 0 <= k < |s| ensures s3[k] == r[k] {
      BoxCellAssembled(s[k], s1[k], s2[k], s3[k], k, x, y, w, h, top, bottom);
    }
  }

  /** One cell of `DrawBox`: the three passes leave the cell as `BoxDrawn` has it. */
  lemma BoxCellAssembled(v0: Byte, v1: Byte, v2: Byte, v3: Byte, k: nat, x: Byte, y: Byte, w: Byte, h: Byte, top: nat, bottom: nat)
    requires BoxFits(x, y, w, h) && top == Cell(x, y, 0, 0) && bottom == Cell(x, y, 0, h - 1)
    requires v1 == if k == top then CornerTopLeft
                   else if k == top + w - 1 then CornerTopRight
                   else if top < k < top + w - 1 then HorizontalLine
                   else v0
    requires v2 == if SideCell(k, x, y, w, h - 1) then VerticalLine else v1
    requires v3 == if k == bottom then CornerBottomLeft
                   else if k == bottom + w - 1 then CornerBottomRight
                   else if bottom < k < bottom + w - 1 then HorizontalLine
                   else v2
    ensures
      v3 == if top <= k && (k - top) % ScreenWidth < w && (k - top) / ScreenWidth < h
            then BoxGlyph(w, h, (k - top) % ScreenWidth, (k - top) / ScreenWidth, v0)
            else v0
  {
    SideCellIff(k, x, y, w, h - 1);
  }
}
