/**
 * Pixel grids as the two wraparound scripts use them through PIL: source pictures, 8x8
 * tiles cut from them, and the two ways a tile's rows are moved (a cyclic scroll within
 * one tile, and a window onto two tiles stacked one above the other). Coordinates follow
 * PIL: `x` is the column, `y` the row counted from the top, and grids are indexed `[x][y]`.
 */
module Raster {
  datatype Pixel = Rgb(r: nat, g: nat, b: nat)

  /** What `Image.new('RGB', …)` fills a new image with, and what a crop outside the picture reads. */
  const Black := Rgb(0, 0, 0)

  /** A tile is TILE_WIDTH = 8 columns of TILE_HEIGHT = 8 pixels. */
  predicate IsTile(t: seq<seq<Pixel>>) {
    |t| == 8 && forall x :: 0 <= x < 8 ==> |t[x]| == 8
  }

  type Tile = t: seq<seq<Pixel>> | IsTile(t) witness seq(8, _ => seq(8, _ => Black))

  const BlackTile: Tile := seq(8, _ => seq(8, _ => Black))

  /** Tiles are equal when their pixels are. */
  lemma TileEq(u: Tile, v: Tile)
    requires forall x, y :: 0 <= x < 8 && 0 <= y < 8 ==> u[x][y] == v[x][y]
    ensures u == v
  {
    forall x | 0 <= x < 8
      ensures u[x] == v[x]
    {
      assert forall y :: 0 <= y < 8 ==> u[x][y] == v[x][y];
    }
  }

  datatype Picture = Picture(width: nat, height: nat, px: seq<seq<Pixel>>)

  predicate WellFormed(p: Picture) {
    |p.px| == p.width && forall x :: 0 <= x < p.width ==> |p.px[x]| == p.height
  }

  /** An opened image file: `width` columns of `height` pixels. */
  type Pic = p: Picture | WellFormed(p) witness Picture(0, 0, [])

  /** How many values `range(0, n, 8)` or `range(n, 0, -8)` takes: the tiles across `n` pixels. */
  function Count(n: nat): nat {
    (n + 7) / 8
  }

  /** `Image.open` on each input file, through the stand-in `open`. */
  function OpenAll(files: seq<string>, open: string -> Pic): (ps: seq<Pic>)
    ensures |ps| == |files| && forall k :: 0 <= k < |files| ==> ps[k] == open(files[k])
  {
    seq(|files|, k requires 0 <= k < |files| => open(files[k]))
  }

  /** The pixel a crop reads at `(x, y)`: black outside the picture. */
  function At(p: Pic, x: int, y: int): Pixel {
    if 0 <= x < p.width && 0 <= y < p.height then p.px[x][y] else Black
  }

  /** `im.crop((x0, y0, x0 + 8, y0 + 8))`. */
  function Crop(p: Pic, x0: int, y0: int): (t: Tile)
    ensures forall x, y :: 0 <= x < 8 && 0 <= y < 8 ==> t[x][y] == At(p, x0 + x, y0 + y)
  {
    var t := seq(8, x => seq(8, y => At(p, x0 + x, y0 + y)));
    assert forall x :: 0 <= x < 8 ==> |t[x]| == 8;
    t
  }

  /** The tile with its content moved down by `s` rows, the rows pushed out at the bottom coming back at the top. */
  function ScrollDown(t: Tile, s: int): Tile {
    seq(8, x requires 0 <= x < 8 => seq(8, y => t[x][(y - s) % 8]))
  }

  /** Scrolled down by `s`, row `y` of the tile is found at row `(y + s) % 8`. */
  lemma ScrollAt(t: Tile, s: int, x: nat, y: nat)
    requires x < 8 && y < 8
    ensures ScrollDown(t, s)[x][(y + s) % 8] == t[x][y]
  {
    assert ((y + s) % 8 - s) % 8 == y;
  }

  /** Scrolled up by `k`, row `y` holds row `(y + k) % 8` of the tile. */
  lemma ScrollUpAt(t: Tile, k: int, x: nat, y: nat)
    requires x < 8 && y < 8
    ensures ScrollDown(t, -k)[x][y] == t[x][(y + k) % 8]
  {
    assert y - -k == y + k;
  }

  /** Scrolling by `a` and then by `b` is scrolling by `a + b`. */
  lemma ScrollCompose(t: Tile, a: int, b: int)
    ensures ScrollDown(ScrollDown(t, a), b) == ScrollDown(t, a + b)
  {
    var u, v := ScrollDown(ScrollDown(t, a), b), ScrollDown(t, a + b);
    forall x, y | 0 <= x < 8 && 0 <= y < 8
      ensures u[x][y] == v[x][y]
    {
      assert ((y - b) % 8 - a) % 8 == (y - (a + b)) % 8;
    }
    TileEq(u, v);
  }

  /** Scrolling by nothing, or by a whole turn of eight rows, changes nothing. */
  lemma ScrollZero(t: Tile)
    ensures ScrollDown(t, 0) == t && ScrollDown(t, 8) == t
  {
    var u, v := ScrollDown(t, 0), ScrollDown(t, 8);
    forall x, y | 0 <= x < 8 && 0 <= y < 8
      ensures u[x][y] == t[x][y] && v[x][y] == t[x][y]
    {
      assert (y - 0) % 8 == y && (y - 8) % 8 == y;
    }
    TileEq(u, t);
    TileEq(v, t);
  }

  /** Scrolling back undoes a scroll. */
  lemma ScrollInverse(t: Tile, s: int)
    ensures ScrollDown(ScrollDown(t, s), -s) == t
  {
    ScrollCompose(t, s, -s);
    ScrollZero(t);
  }

  /** A scroll repeats every eight rows. */
  lemma ScrollPeriod(t: Tile, s: int)
    ensures ScrollDown(t, s + 8) == ScrollDown(t, s)
  {
    ScrollCompose(t, s, 8);
    ScrollZero(ScrollDown(t, s));
  }

  /**
   * Rows `off` to `off + 7` of the 16-row strip made of `upper` stacked on `lower`:
   * `off == 0` is `upper`, `off == 8` is `lower`.
   */
  function Window(upper: Tile, lower: Tile, off: nat): (t: Tile)
    requires off <= 8
    ensures forall x, y :: 0 <= x < 8 && 0 <= y < 8 ==>
              t[x][y] == if off + y < 8 then upper[x][off + y] else lower[x][off + y - 8]
  {
    seq(8, x requires 0 <= x < 8 =>
      seq(8, y requires 0 <= y < 8 =>
        if off + y < 8 then upper[x][off + y] else lower[x][off + y - 8]))
  }

  /** A window onto a tile stacked on itself is that tile scrolled. */
  lemma WindowSelf(t: Tile, s: nat)
    requires s <= 8
    ensures Window(t, t, 8 - s) == ScrollDown(t, s)
  {
    var u, v := Window(t, t, 8 - s), ScrollDown(t, s);
    forall x, y | 0 <= x < 8 && 0 <= y < 8
      ensures u[x][y] == v[x][y]
    {
      if 8 - s + y < 8 {
        assert (y - s) % 8 == 8 - s + y;
      } else {
        assert (y - s) % 8 == y - s;
      }
    }
    TileEq(u, v);
  }

  /**
   * Cropping `s` rows higher is looking through a window onto the tile above and the tile
   * itself, wherever the crop falls relative to the picture.
   */
  lemma CropWindow(p: Pic, x0: int, y0: int, s: nat)
    requires s <= 8
    ensures Crop(p, x0, y0 - s) == Window(Crop(p, x0, y0 - 8), Crop(p, x0, y0), 8 - s)
  {
    var u, v := Crop(p, x0, y0 - s), Window(Crop(p, x0, y0 - 8), Crop(p, x0, y0), 8 - s);
    forall x, y | 0 <= x < 8 && 0 <= y < 8
      ensures u[x][y] == v[x][y]
    {
    }
    TileEq(u, v);
  }
}
