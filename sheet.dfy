/**
 * The sheet both wraparound scripts write: a fresh black image `width` pixels wide into
 * which the tiles are pasted one after another, left to right, a new row of tiles starting
 * whenever the cursor reaches the right edge. The image is an `array2` indexed `[x, y]`.
 */
module Sheet {
  import opened Raster

  /** `d * c` is at least `c` for a positive factor `d`. */
  lemma MulAtLeast(d: int, c: nat)
    requires d >= 1
    ensures d * c >= c
  {
    var e := d - 1;
    assert d * c == e * c + c;
  }

  /** Quotient and remainder are the only row and column that give back `k`. */
  lemma DivModUnique(k: nat, cols: nat, row: nat, col: nat)
    requires col < cols && k == row * cols + col
    ensures k / cols == row && k % cols == col
  {
    var q, r := k / cols, k % cols;
    assert q * cols + r == k;
    assert (q - row) * cols == col - r;
    if q > row {
      MulAtLeast(q - row, cols);
    } else if q < row {
      MulAtLeast(row - q, cols);
    }
  }

  /** `math.ceil(a / b)` for a positive divisor: the fewest rows of `b` that hold `a` entries. */
  function CeilDiv(a: nat, b: nat): (q: nat)
    requires b >= 1
    ensures a <= q * b
    ensures q >= 1 ==> (q - 1) * b < a
  {
    var n := a + b - 1;
    assert n / b * b + n % b == n;
    assert (n / b - 1) * b == n / b * b - b;
    n / b
  }

  /** Row `k / cols` is one of the `CeilDiv(n, cols)` rows when `k < n`. */
  lemma RowWithin(n: nat, cols: nat, k: nat)
    requires cols >= 1 && k < n
    ensures k / cols < CeilDiv(n, cols)
  {
    var q, row := CeilDiv(n, cols), k / cols;
    assert row * cols + k % cols == k;
    if row >= q {
      MulAtLeast(row - q + 1, cols);
    }
  }

  /** `a * c <= b * c` when `a <= b`. */
  lemma MulMono(a: nat, b: nat, c: nat)
    requires a <= b
    ensures a * c <= b * c
  {
    if a < b {
      MulAtLeast(b - a, c);
      assert b * c == a * c + (b - a) * c;
    }
  }

  /** The two bounds of `CeilDiv` single out its value. */
  lemma CeilDivUnique(a: nat, b: nat, q: nat)
    requires b >= 1 && a <= q * b && (q >= 1 ==> (q - 1) * b < a)
    ensures CeilDiv(a, b) == q
  {
    var r := CeilDiv(a, b);
    if r < q {
      MulMono(r, q - 1, b);
    } else if r > q {
      MulMono(q, r - 1, b);
    }
  }

  /**
   * `math.ceil(n * 8 / width) * 8` of vwrap_up.py (line 116): as many 8-pixel rows as it
   * takes to hold `n` tiles `width / 8` to a row.
   */
  function SheetHeight(n: nat, width: nat): (h: nat)
    requires width >= 8 && width % 8 == 0
    ensures h == 8 * CeilDiv(n, width / 8)
  {
    var cols, q := width / 8, CeilDiv(n, width / 8);
    assert q * width == 8 * (q * cols) && (q - 1) * width == 8 * ((q - 1) * cols);
    CeilDivUnique(8 * n, width, q);
    8 * CeilDiv(8 * n, width)
  }

  /** The position, counted row by row across `cols` columns, of the tile slot holding pixel `(px, py)`. */
  function Slot(cols: nat, px: nat, py: nat): nat {
    (py / 8) * cols + px / 8
  }

  /**
   * The colour of pixel `(px, py)` of a sheet `cols` tiles wide once every tile is pasted:
   * the pixel of the tile whose slot covers it, black where no tile was pasted.
   */
  function SheetPixel(tiles: seq<Tile>, cols: nat, px: nat, py: nat): Pixel {
    var s := Slot(cols, px, py);
    if s < |tiles| then tiles[s][px % 8][py % 8] else Black
  }

  /**
   * Pasting tile `t` in the next slot, at column `col` and row `row`, changes exactly the
   * pixels of its 8x8 box.
   */
  lemma PasteStep(ts: seq<Tile>, t: Tile, cols: nat, row: nat, col: nat, px: nat, py: nat)
    requires col < cols && |ts| == row * cols + col && px < 8 * cols
    ensures SheetPixel(ts + [t], cols, px, py)
            == if 8 * col <= px < 8 * col + 8 && 8 * row <= py < 8 * row + 8
               then t[px - 8 * col][py - 8 * row] else SheetPixel(ts, cols, px, py)
  {
    var a, b := px / 8, py / 8;
    var s := Slot(cols, px, py);
    assert a < cols;
    if 8 * col <= px < 8 * col + 8 && 8 * row <= py < 8 * row + 8 {
      assert a == col && b == row;
      assert s == |ts|;
    } else if s == |ts| {
      DivModUnique(s, cols, b, a);
      DivModUnique(s, cols, row, col);
    }
  }

  /** The column of slot `k` on a sheet `cols` tiles wide. */
  function SlotColumn(k: nat, cols: nat): nat
    requires cols >= 1
  {
    k % cols
  }

  /** The row of slot `k` on a sheet `cols` tiles wide. */
  function SlotRow(k: nat, cols: nat): nat
    requires cols >= 1
  {
    k / cols
  }

  /** Every tile lies in its slot: tile `k` shows whole at column `k % cols`, row `k / cols`. */
  lemma Shown(tiles: seq<Tile>, cols: nat, k: nat, x: nat, y: nat)
    requires cols >= 1 && k < |tiles| && x < 8 && y < 8
    ensures var px, py := 8 * SlotColumn(k, cols) + x, 8 * SlotRow(k, cols) + y;
            && px < 8 * cols && py < 8 * CeilDiv(|tiles|, cols)
            && SheetPixel(tiles, cols, px, py) == tiles[k][x][y]
  {
    var px, py := 8 * SlotColumn(k, cols) + x, 8 * SlotRow(k, cols) + y;
    RowWithin(|tiles|, cols, k);
    assert px / 8 == k % cols && px % 8 == x;
    assert py / 8 == k / cols && py % 8 == y;
    assert Slot(cols, px, py) == k;
  }

  /**
   * `result_im.paste(new_im, (x0, y0))`: the tile's pixels replace the sheet's inside its
   * box, clipped to the sheet; nothing else changes.
   */
  method Paste(sheet: array2<Pixel>, t: Tile, x0: nat, y0: nat)
    modifies sheet
    ensures forall px, py :: 0 <= px < sheet.Length0 && 0 <= py < sheet.Length1 ==>
              sheet[px, py] == if x0 <= px < x0 + 8 && y0 <= py < y0 + 8
                               then t[px - x0][py - y0] else old(sheet[px, py])
  {
    for x := 0 to 8
      invariant forall px, py :: 0 <= px < sheet.Length0 && 0 <= py < sheet.Length1 ==>
                  sheet[px, py] == if x0 <= px < x0 + x && y0 <= py < y0 + 8
                                   then t[px - x0][py - y0] else old(sheet[px, py])
    {
      for y := 0 to 8
        invariant forall px, py :: 0 <= px < sheet.Length0 && 0 <= py < sheet.Length1 ==>
                    sheet[px, py] == if (x0 <= px < x0 + x && y0 <= py < y0 + 8) || (px == x0 + x && y0 <= py < y0 + y)
                                     then t[px - x0][py - y0] else old(sheet[px, py])
      {
        if x0 + x < sheet.Length0 && y0 + y < sheet.Length1 {
          sheet[x0 + x, y0 + y] := t[x][y];
        }
      }
    }
  }

  /**
   * The packing loop: a black `width` x `height` image, then each tile pasted at the cursor,
   * which moves 8 pixels right after each tile and back to the left edge, 8 pixels lower,
   * once it reaches the right edge.
   */
  method Pack(tiles: seq<Tile>, width: nat, height: nat) returns (sheet: array2<Pixel>)
    requires width >= 8 && width % 8 == 0
    ensures fresh(sheet) && sheet.Length0 == width && sheet.Length1 == height
    ensures forall px, py :: 0 <= px < width && 0 <= py < height ==>
              sheet[px, py] == SheetPixel(tiles, width / 8, px, py)
  {
    sheet := new Pixel[width, height]((_, _) => Black);
    var cols := width / 8;
    var x, y := 0, 0;
    ghost var row, col := 0, 0;
    for k := 0 to |tiles|
      invariant sheet.Length0 == width && sheet.Length1 == height
      invariant x == 8 * col && y == 8 * row && col <= cols
      invariant k == row * cols + col
      invariant forall px, py :: 0 <= px < width && 0 <= py < height ==>
                  sheet[px, py] == SheetPixel(tiles[..k], cols, px, py)
    {
      if x == width {
        assert (row + 1) * cols == row * cols + cols;
        x, y := 0, y + 8;
        row, col := row + 1, 0;
      }
      Paste(sheet, tiles[k], x, y);
      assert tiles[..k + 1] == tiles[..k] + [tiles[k]];
      forall px, py | 0 <= px < width && 0 <= py < height
        ensures sheet[px, py] == SheetPixel(tiles[..k + 1], cols, px, py)
      {
        PasteStep(tiles[..k], tiles[k], cols, row, col, px, py);
      }
      x, col := x + 8, col + 1;
    }
    assert tiles[..|tiles|] == tiles;
  }
}
