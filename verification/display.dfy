/**
 * The 64x32 monochrome screen of console_io.go (`CHIP8GPU`): the pixel grid,
 * its allocation and clearing, and `draw_line8`, which XORs one 8-pixel
 * sprite row onto the grid with wraparound and reports whether a lit pixel
 * was erased.
 *
 * The grid is indexed `pic[x][y]`: column first, as in the source.
 */
module Display {
  import opened Base

  const Width: nat := 64
  const Height: nat := 32

  type Grid = seq<seq<Byte>>

  /** 64 columns of 32 cells each, as allocated by `init`. */
  predicate WellShaped(g: Grid)
  {
    |g| == Width && forall c :: 0 <= c < Width ==> |g[c]| == Height
  }

  /** Every cell is 0 (unlit) or 1 (lit). */
  predicate Binary(g: Grid)
    requires WellShaped(g)
  {
    forall c, q :: 0 <= c < Width && 0 <= q < Height ==> g[c][q] <= 1
  }

  /** The all-unlit grid. */
  function Blank(): (g: Grid)
    ensures WellShaped(g)
  {
    seq(Width, _ => seq(Height, _ => 0))
  }

  /** The grid-allocation part of `CHIP8GPU.init`: 64 columns of 32 unlit cells. */
  function Init(): (g: Grid)
    ensures WellShaped(g) && Binary(g)
    ensures forall c, q :: 0 <= c < Width && 0 <= q < Height ==> g[c][q] == 0
  {
    Blank()
  }

  /** `clear_screen`: every one of the 64x32 cells becomes unlit. */
  function Clear(g: Grid): (r: Grid)
    requires WellShaped(g)
    ensures WellShaped(r) && Binary(r)
    ensures forall c, q :: 0 <= c < Width && 0 <= q < Height ==> r[c][q] == 0
  {
    Blank()
  }

  /** The loop `for v < 0 { v += step }`. */
  function AddUntilNonNegative(v: int, step: nat): (r: int)
    requires step == Width || step == Height
    ensures 0 <= r
    ensures v >= 0 ==> r == v
    ensures v < 0 ==> r < step && r % step == v % step
    decreases if v < 0 then -v else 0
  {
    if v < 0 then
      assert (v + step) % step == v % step by {
        if step == Width {
          assert (v + Width) % Width == v % Width;
        } else {
          assert (v + Height) % Height == v % Height;
        }
      }
      AddUntilNonNegative(v + step, step)
    else v
  }

  /**
   * The row `draw_line8` writes for its `int8` argument `y`: one subtraction
   * of 32 if `y >= 32`, then 32 added while negative. The result is a valid
   * row exactly when `y < 64`; for 64..127 it is 32..95 and indexing panics.
   */
  function RowIndex(y: Int8): (r: int)
    ensures 0 <= r
    ensures r < Height <==> y < 64
    ensures r < Height ==> r == y % Height
  {
    AddUntilNonNegative(if y >= 32 then y - 32 else y, Height)
  }

  /**
   * The column bit `i` of the row lands in: `xp := x + int8(i)` with `int8`
   * wraparound, one subtraction of 64 if `xp >= 64`, then 64 added while
   * negative. For every `int8` x it is `(x + i) mod 64`.
   */
  function ColumnIndex(x: Int8, i: nat): (c: nat)
    requires i < 8
    ensures c < Width && c == (x + i) % Width
  {
    var xp := Wrap8s(x + i);
    AddUntilNonNegative(if xp >= 64 then xp - 64 else xp, Width)
  }

  /** Which bit of the row (0 = leftmost) lands in column `c`, if it is below 8. */
  function Offset(x: Int8, c: int): (k: nat)
    ensures k < Width
  {
    (c - x) % Width
  }

  lemma OffsetOfColumn(x: Int8, i: nat)
    requires i < 8
    ensures Offset(x, ColumnIndex(x, i)) == i
  {
  }

  /** `(pixel & 1) ^ bit`. */
  function Flip(p: Byte, b: int): (r: Byte)
    requires b == 0 || b == 1
    ensures r <= 1
  {
    if p % 2 == b then 0 else 1
  }

  /** The pixel the cell holds after the row is drawn: the old bit XOR the row's bit. */
  function Blended(g: Grid, x: Int8, row: nat, line: Byte, c: nat, q: nat): Byte
    requires WellShaped(g) && c < Width && q < Height
  {
    if q == row && Offset(x, c) < 8 then Flip(g[c][q], Bit(line, 7 - Offset(x, c))) else g[c][q]
  }

  /**
   * Reference blit: the cell in column c of the target row takes row bit
   * `Offset(x, c)` (most significant bit leftmost) when that offset is
   * below 8; all other cells keep their value.
   */
  function Blit(g: Grid, x: Int8, row: nat, line: Byte): (r: Grid)
    requires WellShaped(g) && row < Height
    ensures WellShaped(r)
  {
    seq(Width, c requires 0 <= c < Width => seq(Height, q requires 0 <= q < Height => Blended(g, x, row, line, c, q)))
  }

  /** A lit cell that the row turns off, in one of the columns at offset `from`..7. */
  predicate ErasesFrom(g: Grid, x: Int8, row: nat, line: Byte, from: nat)
    requires WellShaped(g) && row < Height
  {
    exists c :: 0 <= c < Width && from <= Offset(x, c) < 8 &&
      g[c][row] == 1 && Flip(g[c][row], Bit(line, 7 - Offset(x, c))) == 0
  }

  /** Reference collision: some lit cell of the eight target cells is turned off. */
  predicate Collides(g: Grid, x: Int8, row: nat, line: Byte)
    requires WellShaped(g) && row < Height
  {
    ErasesFrom(g, x, row, line, 0)
  }

  /** Column `c` is the only one at offset `i`. */
  lemma OffsetInjective(x: Int8, i: nat, c: int)
    requires i < 8 && 0 <= c < Width && Offset(x, c) == i
    ensures c == ColumnIndex(x, i)
  {
  }

  /** The cell update of loop iteration `i`: column `ColumnIndex(x, i)` of the row takes bit `7 - i`. */
  function DrawBit(g: Grid, x: Int8, row: nat, line: Byte, i: nat): (r: Grid)
    requires WellShaped(g) && row < Height && i < 8
    ensures WellShaped(r)
    ensures forall c, q :: 0 <= c < Width && 0 <= q < Height ==>
      r[c][q] == (if Offset(x, c) == i then Blended(g, x, row, line, c, q) else g[c][q])
  {
    var c := ColumnIndex(x, i);
    OffsetOfColumn(x, i);
    var column: seq<Byte> := g[c][row := Flip(g[c][row], Bit(line, 7 - i))];
    var r := g[c := column];
    forall c' | 0 <= c' < Width && Offset(x, c') == i
      ensures c' == c
    {
      OffsetInjective(x, i, c');
    }
    r
  }

  /** Iteration `i` erases a lit pixel exactly when column offset `i` is counted by `ErasesFrom`. */
  lemma ErasesStep(g: Grid, x: Int8, row: nat, line: Byte, i: nat)
    requires WellShaped(g) && row < Height && i < 8
    ensures var c := ColumnIndex(x, i);
      ErasesFrom(g, x, row, line, i) <==>
      (g[c][row] == 1 && Flip(g[c][row], Bit(line, 7 - i)) == 0) || ErasesFrom(g, x, row, line, i + 1)
    ensures ErasesFrom(DrawBit(g, x, row, line, i), x, row, line, i + 1) <==> ErasesFrom(g, x, row, line, i + 1)
  {
    var c := ColumnIndex(x, i);
    OffsetOfColumn(x, i);
    if ErasesFrom(g, x, row, line, i) {
      var c' :| 0 <= c' < Width && i <= Offset(x, c') < 8 &&
        g[c'][row] == 1 && Flip(g[c'][row], Bit(line, 7 - Offset(x, c'))) == 0;
      if Offset(x, c') == i {
        OffsetInjective(x, i, c');
      }
    }
    var g' := DrawBit(g, x, row, line, i);
    if ErasesFrom(g', x, row, line, i + 1) {
      var c' :| 0 <= c' < Width && i + 1 <= Offset(x, c') < 8 &&
        g'[c'][row] == 1 && Flip(g'[c'][row], Bit(line, 7 - Offset(x, c'))) == 0;
      assert g'[c'][row] == g[c'][row];
    }
    if ErasesFrom(g, x, row, line, i + 1) {
      var c' :| 0 <= c' < Width && i + 1 <= Offset(x, c') < 8 &&
        g[c'][row] == 1 && Flip(g[c'][row], Bit(line, 7 - Offset(x, c'))) == 0;
      assert g'[c'][row] == g[c'][row];
    }
  }

  /** Bits `i`..7 of the loop in `draw_line8`, with `ret` the flag so far. */
  function DrawBits(g: Grid, x: Int8, row: nat, line: Byte, i: nat, ret: Byte): (r: (Grid, Byte))
    requires WellShaped(g) && row < Height && i <= 8 && ret <= 1
    ensures WellShaped(r.0)
    ensures forall c, q :: 0 <= c < Width && 0 <= q < Height ==>
      r.0[c][q] == (if i <= Offset(x, c) < 8 then Blended(g, x, row, line, c, q) else g[c][q])
    ensures r.1 <= 1
    ensures r.1 == 1 <==> ret == 1 || ErasesFrom(g, x, row, line, i)
    decreases 8 - i
  {
    if i == 8 then (g, ret)
    else
      var c := ColumnIndex(x, i);
      var was := g[c][row];
      var pix := Flip(was, Bit(line, 7 - i));
      var ret' := if was == 1 && pix == 0 then 1 else ret;
      var g' := DrawBit(g, x, row, line, i);
      ErasesStep(g, x, row, line, i);
      var r := DrawBits(g', x, row, line, i + 1, ret');
      assert forall c', q :: 0 <= c' < Width && 0 <= q < Height && i + 1 <= Offset(x, c') < 8 ==>
        Blended(g', x, row, line, c', q) == Blended(g, x, row, line, c', q);
      r
  }

  /**
   * `draw_line8(x, y, line)`: `None` when the row index is out of range (the
   * panic for y in 64..127); otherwise the grid after the blit and the
   * returned flag, 1 exactly when a lit pixel was erased.
   */
  function DrawLine8(g: Grid, x: Int8, y: Int8, line: Byte): (r: Option<(Grid, Byte)>)
    requires WellShaped(g)
    ensures r.None? <==> y >= 64
    ensures r.Some? ==> r.value.0 == Blit(g, x, RowIndex(y), line)
    ensures r.Some? ==> r.value.1 <= 1 && (r.value.1 == 1 <==> Collides(g, x, RowIndex(y), line))
  {
    var row := RowIndex(y);
    if row >= Height then None
    else
      var (g', ret) := DrawBits(g, x, row, line, 0, 0);
      BlitCellwise(g, x, row, line, g');
      Some((g', ret))
  }

  /** A grid that agrees with the reference blit at every cell is the reference blit. */
  lemma BlitCellwise(g: Grid, x: Int8, row: nat, line: Byte, g': Grid)
    requires WellShaped(g) && WellShaped(g') && row < Height
    requires forall c, q :: 0 <= c < Width && 0 <= q < Height ==>
      g'[c][q] == (if 0 <= Offset(x, c) < 8 then Blended(g, x, row, line, c, q) else g[c][q])
    ensures g' == Blit(g, x, row, line)
  {
    var b := Blit(g, x, row, line);
    forall c | 0 <= c < Width
      ensures g'[c] == b[c]
    {
      assert |g'[c]| == Height == |b[c]|;
      forall q | 0 <= q < Height
        ensures g'[c][q] == b[c][q]
      {
        assert b[c][q] == Blended(g, x, row, line, c, q);
      }
    }
  }

  /** Every cell stays 0 or 1 under a draw. */
  lemma DrawKeepsBinary(g: Grid, x: Int8, y: Int8, line: Byte)
    requires WellShaped(g) && Binary(g) && y < 64
    ensures Binary(DrawLine8(g, x, y, line).value.0)
  {
  }

  /** Drawing the same row twice at the same place restores a 0/1 grid: XOR is self-inverse. */
  lemma DrawTwiceRestores(g: Grid, x: Int8, y: Int8, line: Byte)
    requires WellShaped(g) && Binary(g) && y < 64
    ensures DrawLine8(DrawLine8(g, x, y, line).value.0, x, y, line).value.0 == g
  {
    var row := RowIndex(y);
    var g1 := Blit(g, x, row, line);
    var g2 := Blit(g1, x, row, line);
    forall c | 0 <= c < Width
      ensures g2[c] == g[c]
    {
      forall q | 0 <= q < Height
        ensures g2[c][q] == g[c][q]
      {
        if q == row && Offset(x, c) < 8 {
          assert g[c][q] <= 1;
        }
      }
    }
  }

  /**
   * The second of two identical draws reports a collision exactly when the
   * first lit some pixel: a set row bit over a cell that was unlit.
   */
  lemma SecondDrawCollides(g: Grid, x: Int8, y: Int8, line: Byte)
    requires WellShaped(g) && Binary(g) && y < 64
    ensures var row := RowIndex(y);
      DrawLine8(DrawLine8(g, x, y, line).value.0, x, y, line).value.1 == 1 <==>
      exists c :: 0 <= c < Width && Offset(x, c) < 8 && Bit(line, 7 - Offset(x, c)) == 1 && g[c][row] == 0
  {
    var row := RowIndex(y);
    var g1 := Blit(g, x, row, line);
    if exists c :: 0 <= c < Width && Offset(x, c) < 8 && Bit(line, 7 - Offset(x, c)) == 1 && g[c][row] == 0 {
      var c :| 0 <= c < Width && Offset(x, c) < 8 && Bit(line, 7 - Offset(x, c)) == 1 && g[c][row] == 0;
      assert g1[c][row] == 1;
      assert ErasesFrom(g1, x, row, line, 0);
    }
    if Collides(g1, x, row, line) {
      var c :| 0 <= c < Width && 0 <= Offset(x, c) < 8 &&
        g1[c][row] == 1 && Flip(g1[c][row], Bit(line, 7 - Offset(x, c))) == 0;
      assert g1[c][row] == Blended(g, x, row, line, c, row);
      assert g[c][row] <= 1;
    }
  }

  /** A draw onto a blank grid erases nothing. */
  lemma DrawOnBlankNoCollision(x: Int8, y: Int8, line: Byte)
    requires y < 64
    ensures DrawLine8(Blank(), x, y, line).value.1 == 0
  {
  }

  /** A row drawn at column 60 touches exactly columns 60..63 and 0..3. */
  lemma WrapAtColumnSixty()
    ensures forall i :: 0 <= i < 8 ==> ColumnIndex(60, i) == [60, 61, 62, 63, 0, 1, 2, 3][i]
    ensures forall c :: 0 <= c < Width ==> (Offset(60, c) < 8 <==> c in {60, 61, 62, 63, 0, 1, 2, 3})
  {
  }

  // ---------------------------------------------------------------------
  // Whole sprites.
  // ---------------------------------------------------------------------

  /**
   * Reference for a whole sprite: its bytes blitted top to bottom at column
   * `x`, the first at row `y` and each next one row lower, every row number
   * wrapped to a byte, reinterpreted as `int8` and folded onto the grid as
   * `draw_line8` does; the sprite is rejected (`None`) at the first row
   * `draw_line8` would reject.
   */
  function Paint(g: Grid, x: Int8, y: int, bytes: seq<Byte>): Option<Grid>
    requires WellShaped(g)
    decreases |bytes|
  {
    if |bytes| == 0 then Some(g)
    else
      var row := RowIndex(ToInt8(Wrap8(y)));
      if row >= Height then None
      else Paint(Blit(g, x, row, bytes[0]), x, y + 1, bytes[1..])
  }

  /**
   * The reference unfolds by one row: painting `data[a .. end]` from row `y`
   * ends where painting `data[b .. end]` from row `y + 1` ends, on the grid
   * with `data[a]` blitted at screen row `row`.
   */
  lemma PaintFromRow(g: Grid, g': Grid, x: Int8, y: int, row: nat, data: seq<Byte>, a: nat, b: nat, end: nat)
    requires WellShaped(g)
    requires b == a + 1 && a < end <= |data|
    requires row == RowIndex(ToInt8(Wrap8(y))) && row < Height
    requires g' == Blit(g, x, row, data[a])
    ensures Paint(g, x, y, data[a .. end]) == Paint(g', x, y + 1, data[b .. end])
  {
    SliceTail(data, a, b, end);
  }

  /** The slice from `a` starts with `data[a]` and continues with the slice from `a + 1`. */
  lemma SliceTail(data: seq<Byte>, a: nat, b: nat, end: nat)
    requires b == a + 1 && a < end <= |data|
    ensures data[a .. end][0] == data[a] && data[a .. end][1..] == data[b .. end]
  {
  }

  /** A row that `draw_line8` rejects stops the reference: the sprite is rejected. */
  lemma PaintStops(g: Grid, x: Int8, y: int, bytes: seq<Byte>)
    requires WellShaped(g) && |bytes| > 0 && ToInt8(Wrap8(y)) >= 64
    ensures Paint(g, x, y, bytes).None?
  {
  }

  /**
   * Three rows painted from row 31 land on screen rows 31, 0 and 1: rows
   * 32 and 33 fold back to the top of the 32-row grid.
   */
  lemma PaintWrapsToTop(g: Grid, x: Int8, bytes: seq<Byte>)
    requires WellShaped(g) && |bytes| == 3
    ensures Paint(g, x, 31, bytes) == Some(Blit(Blit(Blit(g, x, 31, bytes[0]), x, 0, bytes[1]), x, 1, bytes[2]))
  {
    var g1 := Blit(g, x, 31, bytes[0]);
    var g2 := Blit(g1, x, 0, bytes[1]);
    var g3 := Blit(g2, x, 1, bytes[2]);
    PaintStep(g, x, 31, 31, bytes, g1, bytes[1..]);
    PaintStep(g1, x, 32, 0, bytes[1..], g2, bytes[2..]);
    PaintStep(g2, x, 33, 1, bytes[2..], g3, bytes[3..]);
  }

  /** One step of the reference: the first byte is blitted at screen row `row` and the rest painted one row lower. */
  lemma PaintStep(g: Grid, x: Int8, y: int, row: nat, bytes: seq<Byte>, g': Grid, rest: seq<Byte>)
    requires WellShaped(g) && |bytes| > 0 && row == RowIndex(ToInt8(Wrap8(y))) && row < Height
    requires g' == Blit(g, x, row, bytes[0]) && rest == bytes[1..]
    ensures Paint(g, x, y, bytes) == Paint(g', x, y + 1, rest)
  {
  }
}
