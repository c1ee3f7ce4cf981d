/**
 * vwrap.py, the earlier wraparound script: cuts every input picture into 8x8 tiles row by
 * row, and follows each tile with `8 / step - 1` copies whose rows are rotated upwards by
 * one, two, ... rows; all of them are laid out on a sheet `width` pixels wide.
 *
 * The rotation is taken modulo the picture's height (line 60), which is the height of a
 * tile only for pictures 8 pixels high: taller pictures make `putpixel` fail, and shorter
 * ones give copies in which several source rows land on the same row. The script as
 * written is `Script`; `ScriptFixed` is the same script with the copies taken modulo 8,
 * the sheet height of vwrap_up.py and the form without `--` read as `argv[2:5]`.
 */
module Vwrap {
  import opened Wrappers
  import opened Raster
  import opened Sheet
  import opened WrapArgs

  /** The first `n` tiles of the tile row whose top edge is at `y`, left to right. */
  function RowTiles(p: Pic, y: int, n: nat): (ts: seq<Tile>)
    ensures |ts| == n && forall c :: 0 <= c < n ==> ts[c] == Crop(p, 8 * c, y)
  {
    seq(n, c requires 0 <= c < n => Crop(p, 8 * c, y))
  }

  /** The tiles of the first `r` tile rows of `p`, row by row. */
  function PictureTiles(p: Pic, r: nat): (ts: seq<Tile>)
    ensures |ts| == 0 <==> r == 0 || p.width == 0
  {
    if r == 0 then [] else PictureTiles(p, r - 1) + RowTiles(p, 8 * (r - 1), Count(p.width))
  }

  /** The original tiles of all pictures in the scan order of vwrap.py; `tiles` counts them. */
  function Originals(images: seq<Pic>): seq<Tile> {
    if images == [] then []
    else
      var p := images[|images| - 1];
      Originals(images[..|images| - 1]) + PictureTiles(p, Count(p.height))
  }

  /** A picture on which the copies fail: it has tiles, and rows modulo its height reach past a tile. */
  predicate Tall(p: Pic) {
    p.width > 0 && p.height > 8
  }

  predicate NoTall(images: seq<Pic>) {
    forall k :: 0 <= k < |images| ==> !Tall(images[k])
  }

  /** Adding a multiple of `m` keeps the remainder. */
  lemma ModMultiple(b: int, q: int, m: int)
    requires 0 <= b < m
    ensures (b + m * q) % m == b
  {
    var k := b + m * q;
    var d, r := k / m - q, k % m;
    assert m * (k / m) + r == k;
    assert m * d == m * (k / m) - m * q;
    assert d * m == b - r;
    if d >= 1 {
      MulAtLeast(d, m);
    } else if d <= -1 {
      MulAtLeast(-d, m);
    }
  }

  /**
   * `new_y = (y - 1 - i) % height` (line 60), Python's `%` with a positive modulus: a row of
   * the picture's height range; for `y == i` the last one, and for a modulus of 8 the row
   * that row `y` of the tile moves up to.
   */
  lemma NewRow(y: nat, i: nat, modulus: nat)
    requires y < 8 && i < 7 && modulus >= 1
    ensures 0 <= (y - 1 - i) % modulus < modulus
    ensures y == i ==> (y - 1 - i) % modulus == modulus - 1
    ensures modulus == 8 ==> ((y - 1 - i) % modulus + 1 + i) % 8 == y
  {
    if y == i {
      ModMultiple(modulus - 1, -1, modulus);
      assert modulus - 1 + modulus * -1 == y - 1 - i;
    }
  }

  /**
   * The last of the rows `y` in `0..7` that line 60 sends to row `b` of a copy, for a
   * modulus of at most 8: the write that stays.
   */
  function Writer(b: nat, i: nat, modulus: nat): (w: nat)
    requires b < modulus <= 8 && i < 7
    ensures w < 8 && (w - 1 - i) % modulus == b && w + modulus >= 8
  {
    var a := 6 - b - i;
    var q, r := a / modulus, a % modulus;
    assert a == modulus * q + r;
    assert 7 - r - 1 - i == b + modulus * q;
    ModMultiple(b, q, modulus);
    7 - r
  }

  /** The last of the rows `0 .. y - 1` sent to row `b`; negative while there is none. */
  function LastBefore(b: int, i: int, modulus: int, y: int): int
    requires modulus >= 1
  {
    (y - 1) - ((y - 2 - b - i) % modulus)
  }

  /** Row `y` becomes the last writer of the row it is sent to, and of no other. */
  lemma LastBeforeStep(b: nat, i: nat, modulus: nat, y: nat)
    requires b < modulus <= 8 && i < 7 && y < 8
    ensures LastBefore(b, i, modulus, y + 1)
            == if (y - 1 - i) % modulus == b then y else LastBefore(b, i, modulus, y)
  {
    var a := y - 1 - b - i;
    assert y - 1 - i == a + b;
    ModSkip(a, b, modulus);
    if a % modulus != 0 {
      ModPred(a, modulus);
    }
  }

  /** Adding `b` below the modulus leaves remainder `b` exactly after a multiple. */
  lemma ModSkip(a: int, b: int, m: int)
    requires 0 <= b < m
    ensures (a + b) % m == b <==> a % m == 0
  {
    if a % m == 0 {
      assert a == m * (a / m);
      ModMultiple(b, a / m, m);
    }
    var c := a + b;
    if c % m == b {
      assert c == m * (c / m) + b;
      assert a == 0 + m * (c / m);
      ModMultiple(0, c / m, m);
    }
  }

  /** One less than a number that is not a multiple has the remainder one less. */
  lemma ModPred(a: int, m: int)
    requires m >= 1 && a % m != 0
    ensures (a - 1) % m == a % m - 1
  {
    assert a - 1 == (a % m - 1) + m * (a / m);
    ModMultiple(a % m - 1, a / m, m);
  }

  /**
   * Copy `i` of `tmp` as lines 54-68 build it when the picture is `modulus` <= 8 pixels
   * high: each row below the modulus holds the last source row sent to it, and the rows
   * from the modulus down stay black. For a taller picture the copy fails (see `Copy`)
   * and no value of this function is ever used; it is then all black.
   */
  function Copied(tmp: Tile, i: nat, modulus: nat): Tile
    requires i < 7
  {
    seq(8, x requires 0 <= x < 8 =>
      seq(8, b requires 0 <= b < 8 =>
        if b < modulus <= 8 then tmp[x][Writer(b, i, modulus)] else Black))
  }

  /**
   * For a picture 8 pixels high the copy is the tile scrolled up by `1 + i`; for a shorter
   * one the rows from the height down are black.
   */
  lemma CopiedRows(tmp: Tile, i: nat, modulus: nat)
    requires i < 7 && 1 <= modulus <= 8
    ensures forall x, b :: 0 <= x < 8 && modulus <= b < 8 ==> Copied(tmp, i, modulus)[x][b] == Black
    ensures modulus == 8 ==> Copied(tmp, i, modulus) == ScrollDown(tmp, -(1 + i))
  {
    if modulus == 8 {
      var t := Copied(tmp, i, 8);
      forall a, b | 0 <= a < 8 && 0 <= b < 8
        ensures t[a][b] == tmp[a][(b + (1 + i)) % 8]
      {
        var w := Writer(b, i, 8);
        assert (w - 1 - i) % 8 == b && w < 8;
        assert w == (b + (1 + i)) % 8;
      }
      Rotated(t, tmp, 1 + i);
    }
  }

  /** A tile whose every row `b` holds row `(b + k) % 8` of `tmp` is `tmp` scrolled up by `k`. */
  lemma Rotated(t: Tile, tmp: Tile, k: int)
    requires forall a, b :: 0 <= a < 8 && 0 <= b < 8 ==> t[a][b] == tmp[a][(b + k) % 8]
    ensures t == ScrollDown(tmp, -k)
  {
    forall a, b | 0 <= a < 8 && 0 <= b < 8
      ensures t[a][b] == ScrollDown(tmp, -k)[a][b]
    {
      ScrollUpAt(tmp, k, a, b);
    }
    TileEq(t, ScrollDown(tmp, -k));
  }

  /**
   * A tile followed by its copies for a picture `modulus` pixels high; with the modulus 8
   * entry `i` of the group is the tile with its rows moved up by `i`.
   */
  function Group(tmp: Tile, step: nat, modulus: nat): (g: seq<Tile>)
    requires step in {1, 2, 4}
    ensures |g| == 8 / step && g[0] == tmp
  {
    [tmp] + seq(8 / step - 1, i requires 0 <= i < 8 / step - 1 => Copied(tmp, i, modulus))
  }

  /** Entry `i` of a group, from 1, is copy `i - 1`; for a picture 8 high, the tile scrolled up by `i`. */
  lemma GroupEntry(tmp: Tile, step: nat, modulus: nat, i: nat)
    requires step in {1, 2, 4} && 1 <= i < 8 / step
    ensures Group(tmp, step, modulus)[i] == Copied(tmp, i - 1, modulus)
    ensures modulus == 8 ==> Group(tmp, step, modulus)[i] == ScrollDown(tmp, -(i as int))
  {
    if modulus == 8 {
      CopiedRows(tmp, i - 1, modulus);
    }
  }

  /** `new_images` for the originals `ts` of pictures `modulus` high: every original followed by its copies. */
  function Expand(ts: seq<Tile>, step: nat, modulus: nat): seq<Tile>
    requires step in {1, 2, 4}
  {
    if ts == [] then [] else Expand(ts[..|ts| - 1], step, modulus) + Group(ts[|ts| - 1], step, modulus)
  }

  /** The list `new_images` the scan as written builds, when no picture is tall. */
  function SheetTiles(images: seq<Pic>, step: nat): (t: seq<Tile>)
    requires step in {1, 2, 4} && NoTall(images)
    ensures |t| == |Originals(images)| * (8 / step)
  {
    if images == [] then []
    else
      var p, init := images[|images| - 1], images[..|images| - 1];
      var ts := PictureTiles(p, Count(p.height));
      ExpandCount(ts, step, p.height);
      assert |Originals(images)| * (8 / step) == |Originals(init)| * (8 / step) + |ts| * (8 / step);
      SheetTiles(init, step) + Expand(ts, step, p.height)
  }

  /** One more picture adds its originals and, when it is not tall, their expansion. */
  lemma ScanStep(images: seq<Pic>, f: nat, step: nat)
    requires step in {1, 2, 4} && f < |images|
    ensures var p := images[f];
            Originals(images[..f + 1]) == Originals(images[..f]) + PictureTiles(p, Count(p.height))
    ensures NoTall(images[..f]) && !Tall(images[f]) ==>
            var p := images[f];
            && NoTall(images[..f + 1])
            && SheetTiles(images[..f + 1], step) == SheetTiles(images[..f], step) + Expand(PictureTiles(p, Count(p.height)), step, p.height)
  {
    assert images[..f + 1][..f] == images[..f];
  }

  /** The list with every copy taken modulo 8. */
  function SheetTilesFixed(images: seq<Pic>, step: nat): (t: seq<Tile>)
    requires step in {1, 2, 4}
    ensures |t| == |Originals(images)| * (8 / step)
  {
    ExpandCount(Originals(images), step, 8);
    Expand(Originals(images), step, 8)
  }

  /** Expanding two lists of originals one after the other. */
  lemma {:induction false} ExpandAppend(a: seq<Tile>, b: seq<Tile>, step: nat, modulus: nat)
    requires step in {1, 2, 4}
    ensures Expand(a + b, step, modulus) == Expand(a, step, modulus) + Expand(b, step, modulus)
    decreases |b|
  {
    if b == [] {
      assert a + b == a;
    } else {
      var n := |b| - 1;
      ExpandAppend(a, b[..n], step, modulus);
      assert (a + b)[..|a| + n] == a + b[..n];
    }
  }

  /** `len(new_images) == tiles * (8 // step)`. */
  lemma {:induction false} ExpandCount(ts: seq<Tile>, step: nat, modulus: nat)
    requires step in {1, 2, 4}
    ensures |Expand(ts, step, modulus)| == |ts| * (8 / step)
    decreases |ts|
  {
    if ts != [] {
      var n := |ts| - 1;
      ExpandCount(ts[..n], step, modulus);
      assert |ts| * (8 / step) == n * (8 / step) + 8 / step;
    }
  }

  /**
   * The group of original `t` starts at entry `t * (8 // step)` of `new_images`: the
   * original there, its copy `e - 1` at `e` entries further.
   */
  lemma {:induction false} ExpandLayout(ts: seq<Tile>, step: nat, modulus: nat, t: nat, e: nat)
    requires step in {1, 2, 4} && t < |ts| && e < 8 / step
    ensures |Expand(ts, step, modulus)| == |ts| * (8 / step)
    ensures t * (8 / step) + e < |Expand(ts, step, modulus)|
    ensures Expand(ts, step, modulus)[t * (8 / step) + e] == Group(ts[t], step, modulus)[e]
    decreases |ts|
  {
    var n, g := |ts| - 1, 8 / step;
    ExpandCount(ts, step, modulus);
    ExpandCount(ts[..n], step, modulus);
    if t < n {
      ExpandLayout(ts[..n], step, modulus, t, e);
    } else {
      assert t * g == n * g;
    }
  }

  /** With the modulus 8, row `r` of entry `k` of a group holds row `(r + k) % 8` of the original. */
  lemma CopyRows(tmp: Tile, step: nat, k: nat, x: nat, r: nat)
    requires step in {1, 2, 4} && k < 8 / step && x < 8 && r < 8
    ensures Group(tmp, step, 8)[k][x][r] == tmp[x][(r + k) % 8]
  {
    if k >= 1 {
      GroupEntry(tmp, step, 8, k);
      ScrollUpAt(tmp, k, x, r);
    }
  }

  /** Scrolling back the copy gives the original: no pixel is lost. */
  lemma CopyLossless(tmp: Tile, i: nat)
    ensures ScrollDown(ScrollDown(tmp, -(1 + i)), 1 + i) == tmp
  {
    ScrollInverse(tmp, -(1 + i));
  }

  /**
   * One column of a copy, as the loop at lines 57-68 writes it with `% modulus`: row `y`
   * goes to row `(y - 1 - i) % modulus`. `false` stands for the `IndexError` of `putpixel`
   * on a row past the bottom of the 8x8 image, which for a modulus above 8 comes at or
   * before `y == i`. Otherwise each row below the modulus ends up with its last writer.
   */
  method CopyColumn(im: array2<Pixel>, tmp: Tile, i: nat, modulus: nat, x: nat) returns (ok: bool)
    requires im.Length0 == 8 && im.Length1 == 8 && x < 8 && i < 7 && modulus >= 1
    modifies im
    ensures ok <==> modulus <= 8
    ensures forall a, b :: 0 <= a < 8 && modulus <= b < 8 ==> im[a, b] == old(im[a, b])
    ensures forall a, b :: 0 <= a < 8 && a != x && 0 <= b < 8 ==> im[a, b] == old(im[a, b])
    ensures ok ==> forall b :: 0 <= b < modulus ==> im[x, b] == tmp[x][Writer(b, i, modulus)]
  {
    for y := 0 to 8
      invariant forall a, b :: 0 <= a < 8 && modulus <= b < 8 ==> im[a, b] == old(im[a, b])
      invariant forall a, b :: 0 <= a < 8 && a != x && 0 <= b < 8 ==> im[a, b] == old(im[a, b])
      invariant y > i ==> modulus <= 8
      invariant modulus <= 8 ==> forall b :: 0 <= b < modulus ==>
                  im[x, b] == if LastBefore(b, i, modulus, y) >= 0 then tmp[x][LastBefore(b, i, modulus, y)]
                              else old(im[x, b])
    {
      NewRow(y, i, modulus);
      var newY := (y - 1 - i) % modulus;
      if newY >= 8 {
        return false;
      }
      im[x, newY] := tmp[x][y];
      if modulus <= 8 {
        forall b | 0 <= b < modulus
          ensures LastBefore(b, i, modulus, y + 1) == if newY == b then y else LastBefore(b, i, modulus, y)
        {
          LastBeforeStep(b, i, modulus, y);
        }
      }
    }
    return true;
  }

  /**
   * Copy `i` of `tmp` as vwrap.py builds it, `modulus` being the picture's height (line 60):
   * it fails exactly when the picture is taller than 8, and is otherwise `Copied`.
   */
  method Copy(tmp: Tile, i: nat, modulus: nat) returns (r: Option<Tile>)
    requires i < 7 && modulus >= 1
    ensures r.None? <==> modulus > 8
    ensures r.Some? ==> r.value == Copied(tmp, i, modulus)
  {
    var im := new Pixel[8, 8]((_, _) => Black);
    for x := 0 to 8
      invariant forall a, b :: 0 <= a < 8 && modulus <= b < 8 ==> im[a, b] == Black
      invariant x >= 1 ==> modulus <= 8
      invariant modulus <= 8 ==> forall a, b :: 0 <= a < x && 0 <= b < modulus ==> im[a, b] == tmp[a][Writer(b, i, modulus)]
    {
      var ok := CopyColumn(im, tmp, i, modulus, x);
      if !ok {
        return None;
      }
    }
    var t := seq(8, x requires 0 <= x < 8 reads im => seq(8, y requires 0 <= y < 8 reads im => im[x, y]));
    TileEq(t, Copied(tmp, i, modulus));
    return Some(t);
  }

  /** One tile of the scan (lines 47-71): the crop and then its copies, or the failure of the first copy. */
  method VisitTile(p: Pic, x: int, y: int, step: nat, modulus: nat, out: seq<Tile>) returns (r: Option<seq<Tile>>)
    requires step in {1, 2, 4} && modulus >= 1
    ensures r.None? <==> modulus > 8
    ensures r.Some? ==> r.value == out + Group(Crop(p, x, y), step, modulus)
  {
    var tmp := Crop(p, x, y);
    var acc := out + [tmp];
    for i := 0 to 8 / step - 1
      invariant i >= 1 ==> modulus <= 8
      invariant modulus <= 8 ==> acc == out + Group(tmp, step, modulus)[..i + 1]
    {
      var c := Copy(tmp, i, modulus);
      if c.None? {
        return None;
      }
      GroupEntry(tmp, step, modulus, i + 1);
      assert Group(tmp, step, modulus)[..i + 2] == Group(tmp, step, modulus)[..i + 1] + [c.value];
      acc := acc + [c.value];
    }
    assert Group(tmp, step, modulus)[..8 / step] == Group(tmp, step, modulus);
    return Some(acc);
  }

  /** The loop over one tile row, left to right: `x_` runs through `range(0, width, 8)`. */
  method ScanRow(p: Pic, y: int, step: nat, modulus: nat, out: seq<Tile>) returns (r: Option<seq<Tile>>)
    requires step in {1, 2, 4} && modulus >= 1
    ensures r.None? <==> modulus > 8 && p.width > 0
    ensures r.Some? ==> r.value == out + Expand(RowTiles(p, y, Count(p.width)), step, modulus)
  {
    var acc := out;
    for c := 0 to Count(p.width)
      invariant c >= 1 ==> modulus <= 8
      invariant acc == out + Expand(RowTiles(p, y, c), step, modulus)
    {
      var x := 8 * c;
      var v := VisitTile(p, x, y, step, modulus, acc);
      if v.None? {
        return None;
      }
      RowStep(p, y, c, step, modulus);
      acc := v.value;
    }
    return Some(acc);
  }

  /** One more tile of a row expands to its group after those of the tiles left of it. */
  lemma RowStep(p: Pic, y: int, c: nat, step: nat, modulus: nat)
    requires step in {1, 2, 4}
    ensures Expand(RowTiles(p, y, c + 1), step, modulus)
            == Expand(RowTiles(p, y, c), step, modulus) + Group(Crop(p, 8 * c, y), step, modulus)
  {
    assert RowTiles(p, y, c + 1)[..c] == RowTiles(p, y, c);
  }

  /** One more tile row expands to the groups of its tiles after those of the rows above. */
  lemma PictureStep(p: Pic, r: nat, step: nat, modulus: nat)
    requires step in {1, 2, 4}
    ensures Expand(PictureTiles(p, r + 1), step, modulus)
            == Expand(PictureTiles(p, r), step, modulus) + Expand(RowTiles(p, 8 * r, Count(p.width)), step, modulus)
  {
    ExpandAppend(PictureTiles(p, r), RowTiles(p, 8 * r, Count(p.width)), step, modulus);
  }

  /**
   * The loop over the tile rows of one picture, top to bottom: `y_` runs through
   * `range(0, height, 8)`, the copies taken modulo `modulus`.
   */
  method ScanPicture(p: Pic, step: nat, modulus: nat, out: seq<Tile>) returns (r: Option<seq<Tile>>)
    requires step in {1, 2, 4} && (modulus >= 1 || p.height == 0)
    ensures r.None? <==> modulus > 8 && p.width > 0 && p.height > 0
    ensures r.Some? ==> r.value == out + Expand(PictureTiles(p, Count(p.height)), step, modulus)
  {
    var acc := out;
    for row := 0 to Count(p.height)
      invariant row >= 1 && p.width > 0 ==> modulus <= 8
      invariant acc == out + Expand(PictureTiles(p, row), step, modulus)
    {
      var v := NextRow(p, row, step, modulus, out, acc);
      if v.None? {
        return None;
      }
      acc := v.value;
    }
    return Some(acc);
  }

  /** One pass of the loop in `ScanPicture`: tile row `row` appended after the rows above it. */
  method NextRow(p: Pic, row: nat, step: nat, modulus: nat, out: seq<Tile>, acc: seq<Tile>) returns (r: Option<seq<Tile>>)
    requires step in {1, 2, 4} && modulus >= 1
    requires acc == out + Expand(PictureTiles(p, row), step, modulus)
    ensures r.None? <==> modulus > 8 && p.width > 0
    ensures r.Some? ==> r.value == out + Expand(PictureTiles(p, row + 1), step, modulus)
  {
    r := ScanRow(p, 8 * row, step, modulus, acc);
    PictureStep(p, row, step, modulus);
  }

  /**
   * The scan over all pictures (lines 35-72), as written: it fails exactly when some
   * picture is tall; otherwise `tiles` counts the originals and the list is `SheetTiles`.
   */
  method Scan(images: seq<Pic>, step: nat) returns (tiles: nat, r: Option<seq<Tile>>)
    requires step in {1, 2, 4}
    ensures r.None? <==> !NoTall(images)
    ensures r.Some? ==> tiles == |Originals(images)| && r.value == SheetTiles(images, step)
  {
    tiles := 0;
    var acc := [];
    for f := 0 to |images|
      invariant NoTall(images[..f])
      invariant acc == SheetTiles(images[..f], step)
      invariant tiles == |Originals(images[..f])|
    {
      var p := images[f];
      var v := ScanPicture(p, step, p.height, acc);
      if v.None? {
        assert Tall(images[f]);
        return tiles, None;
      }
      ScanStep(images, f, step);
      tiles := tiles + |PictureTiles(p, Count(p.height))|;
      acc := v.value;
    }
    assert images[..|images|] == images;
    return tiles, Some(acc);
  }

  /** The scan with every copy taken modulo 8: the list is `SheetTilesFixed`. */
  method ScanFixed(images: seq<Pic>, step: nat) returns (tiles: nat, out: seq<Tile>)
    requires step in {1, 2, 4}
    ensures tiles == |Originals(images)|
    ensures out == SheetTilesFixed(images, step)
  {
    tiles, out := 0, [];
    for f := 0 to |images|
      invariant out == Expand(Originals(images[..f]), step, 8)
      invariant tiles == |Originals(images[..f])|
    {
      var p := images[f];
      var pic := PictureTiles(p, Count(p.height));
      var v := ScanPicture(p, step, 8, out);
      out := v.value;
      tiles := tiles + |pic|;
      assert images[..f + 1][..f] == images[..f];
      assert Originals(images[..f + 1]) == Originals(images[..f]) + pic;
      ExpandAppend(Originals(images[..f]), pic, step, 8);
    }
    assert images[..|images|] == images;
  }

  /** When every picture with tiles is 8 pixels high, the scan as written is the corrected one. */
  lemma {:induction false} EightHigh(images: seq<Pic>, step: nat)
    requires step in {1, 2, 4}
    requires forall k :: 0 <= k < |images| ==> images[k].height == 8 || images[k].width == 0
    ensures NoTall(images) && SheetTiles(images, step) == SheetTilesFixed(images, step)
    decreases |images|
  {
    if images != [] {
      var n := |images| - 1;
      var p, init := images[n], images[..n];
      var pic := PictureTiles(p, Count(p.height));
      EightHigh(init, step);
      ExpandAppend(Originals(init), pic, step, 8);
      assert Expand(pic, step, p.height) == Expand(pic, step, 8);
    }
  }

  /** `math.ceil(len(new_images) / int(new_width)) * 8` (line 74): divides by the width in pixels. */
  function SheetHeightAsWritten(n: nat, width: nat): (h: nat)
    requires width >= 1
    ensures h == 8 * CeilDiv(n, width)
  {
    8 * CeilDiv(n, width)
  }

  /**
   * Between one and eight rows' worth of tiles get a single row: with more than `width / 8`
   * tiles, the last one starts at or below the bottom edge and is lost. One 8x8 picture with
   * width 8 and step 4 already gives two tiles and a sheet with room for one.
   */
  lemma HeightTooSmall(n: nat, width: nat)
    requires width >= 8 && width % 8 == 0 && width / 8 < n <= width
    ensures SheetHeightAsWritten(n, width) == 8
    ensures 8 * ((n - 1) / (width / 8)) >= SheetHeightAsWritten(n, width)
    ensures SheetHeight(n, width) > SheetHeightAsWritten(n, width)
  {
    CeilDivUnique(n, width, 1);
    var cols := width / 8;
    var q := (n - 1) / cols;
    assert q * cols + (n - 1) % cols == n - 1;
  }

  /**
   * The whole script as written. The copies fail on a tall picture; a negative width
   * passes the checks, and `Image.new` then refuses it. The sheet has the height of line 74.
   */
  method Script(argv: seq<string>, open: string -> Pic) returns (exit: Exit, sheet: array2?<Pixel>)
    ensures ParseVwrap(argv).Err? ==> exit == Stopped(ParseVwrap(argv).error)
    ensures ParseVwrap(argv).Ok? && exit.Stopped? ==> exit == Stopped(Crash)
    ensures exit.Saved? <==> ParseVwrap(argv).Ok? && ParseVwrap(argv).value.width > 0
                             && NoTall(OpenAll(ParseVwrap(argv).value.inputs, open))
    ensures exit.Saved? ==>
              var p := ParseVwrap(argv).value;
              var tiles := SheetTiles(OpenAll(p.inputs, open), p.step);
              && exit.output == p.output && sheet != null && fresh(sheet)
              && sheet.Length0 == p.width && sheet.Length1 == SheetHeightAsWritten(|tiles|, p.width)
              && forall px, py :: 0 <= px < p.width && 0 <= py < sheet.Length1 ==>
                   sheet[px, py] == SheetPixel(tiles, p.width / 8, px, py)
  {
    sheet := null;
    match ParseVwrap(argv)
    case Err(why) =>
      exit := Stopped(why);
    case Ok(p) =>
      var _, r := Scan(OpenAll(p.inputs, open), p.step);
      if r.None? || p.width < 0 {
        exit := Stopped(Crash);
      } else {
        var tiles := r.value;
        assert p.width >= 8 && p.width % 8 == 0;
        sheet := Pack(tiles, p.width, SheetHeightAsWritten(|tiles|, p.width));
        exit := Saved(p.output);
      }
  }

  /**
   * The script with the three corrections: the separator-less command line read as
   * `argv[2:5]`, the copies taken modulo 8, and the sheet as high as vwrap_up.py makes it.
   */
  method ScriptFixed(argv: seq<string>, open: string -> Pic) returns (exit: Exit, sheet: array2?<Pixel>)
    ensures ParseVwrapFixed(argv).Err? ==> exit == Stopped(ParseVwrapFixed(argv).error)
    ensures ParseVwrapFixed(argv).Ok? && exit.Stopped? ==> exit == Stopped(Crash)
    ensures exit.Saved? <==> ParseVwrapFixed(argv).Ok? && ParseVwrapFixed(argv).value.width > 0
    ensures exit.Saved? ==>
              var p := ParseVwrapFixed(argv).value;
              var tiles := SheetTilesFixed(OpenAll(p.inputs, open), p.step);
              && exit.output == p.output && sheet != null && fresh(sheet)
              && sheet.Length0 == p.width && sheet.Length1 == SheetHeight(|tiles|, p.width)
              && forall px, py :: 0 <= px < p.width && 0 <= py < sheet.Length1 ==>
                   sheet[px, py] == SheetPixel(tiles, p.width / 8, px, py)
  {
    sheet := null;
    match ParseVwrapFixed(argv)
    case Err(why) =>
      exit := Stopped(why);
    case Ok(p) =>
      var _, tiles := ScanFixed(OpenAll(p.inputs, open), p.step);
      if p.width < 0 {
        exit := Stopped(Crash);
      } else {
        assert p.width >= 8 && p.width % 8 == 0;
        sheet := Pack(tiles, p.width, SheetHeight(|tiles|, p.width));
        exit := Saved(p.output);
      }
  }

  /**
   * With the corrected height, copy `e` (0 being the original itself) of original tile `t`
   * shows whole on the sheet, in slot `k == t * (8 // step) + e`: its row `y` is row
   * `(y + e) % 8` of the original.
   */
  lemma EveryCopyShown(images: seq<Pic>, step: nat, width: nat, t: nat, e: nat, k: nat, x: nat, y: nat)
    requires step in {1, 2, 4} && width >= 8 && width % 8 == 0
    requires t < |Originals(images)| && e < 8 / step && k == t * (8 / step) + e && x < 8 && y < 8
    ensures var tiles, cols := SheetTilesFixed(images, step), width / 8;
            var px, py := 8 * SlotColumn(k, cols) + x, 8 * SlotRow(k, cols) + y;
            && k < |tiles| && px < width && py < SheetHeight(|tiles|, width)
            && SheetPixel(tiles, cols, px, py) == Originals(images)[t][x][(y + e) % 8]
  {
    var ts := Originals(images);
    var tiles := SheetTilesFixed(images, step);
    ExpandLayout(ts, step, 8, t, e);
    CopyRows(ts[t], step, e, x, y);
    ShownOnSheet(tiles, width, k, tiles[k], x, y);
  }

  /** Tile `k` shows whole on a sheet of the corrected height. */
  lemma ShownOnSheet(tiles: seq<Tile>, width: nat, k: nat, tile: Tile, x: nat, y: nat)
    requires width >= 8 && width % 8 == 0 && k < |tiles| && tiles[k] == tile && x < 8 && y < 8
    ensures var cols := width / 8;
            var px, py := 8 * SlotColumn(k, cols) + x, 8 * SlotRow(k, cols) + y;
            && px < width && py < SheetHeight(|tiles|, width)
            && SheetPixel(tiles, cols, px, py) == tile[x][y]
  {
    Shown(tiles, width / 8, k, x, y);
  }
}
