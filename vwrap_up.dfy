/**
 * vwrap_up.py: cuts every input picture into 8x8 tiles, column by column and from the
 * bottom of each column up, and makes `8 / step` animation levels of each tile: level `i`
 * is the tile moved down by `i * step` pixels inside its column, the pixels that enter at
 * the top coming from the tile above, and for the top tile from the bottom tile, so that
 * every column wraps around vertically. The levels are laid out one after the other on a
 * sheet `width` pixels wide.
 *
 * That is what the wraparound of the top tile of each column does. The loop for the other
 * tiles (lines 105-106) is modelled as written: it starts at level `step` and crops only
 * `i` pixels higher, so with a step above 1 those tiles miss the levels below `step` and
 * move by `i` pixels. `LevelsAsWritten` is the scan as written; `Levels` is the corrected
 * reference, and the two coincide for step 1.
 */
module VwrapUp {
  import opened Wrappers
  import opened Raster
  import opened Montage
  import opened Sheet
  import opened WrapArgs

  /** How far level `i` moves its tiles down: `i * step` pixels, less than a tile. */
  function Shift(step: nat, i: nat): (d: nat)
    requires step in {1, 2, 4} && i < 8 / step
    ensures d < 8 && d == i * step
  {
    i * step
  }

  /** An original tile: picture `pic`, the column starting at pixel `x`, the `j`-th tile counted from the bottom. */
  datatype Spot = Spot(pic: Pic, x: int, j: nat)

  /** The crop of the spot: its bottom edge is `j` tiles above the picture's bottom edge. */
  function Original(s: Spot): Tile {
    Crop(s.pic, s.x, s.pic.height - 8 * s.j - 8)
  }

  /** Whether the spot is the highest tile of its column. */
  predicate Top(s: Spot) {
    s.j + 1 >= Count(s.pic.height)
  }

  /** The tile above the spot in its column; above the top tile comes, wrapping around, the bottom tile. */
  function Above(s: Spot): Tile {
    if Top(s) then Crop(s.pic, s.x, s.pic.height - 8)
    else Crop(s.pic, s.x, s.pic.height - 8 * s.j - 16)
  }

  /**
   * The level frame of a spot for a shift of `d` pixels, as the scan builds it: the tile
   * itself at level 0, a crop `d` pixels higher for a tile below the top, and for the top
   * tile the wraparound of it with the bottom tile.
   */
  function Frame(s: Spot, d: nat): Tile
    requires d < 8
  {
    if d == 0 then Original(s)
    else if !Top(s) then Crop(s.pic, s.x, s.pic.height - 8 * s.j - 8 - d)
    else Window(Crop(s.pic, s.x, s.pic.height - 8), Original(s), 8 - d)
  }

  /** Every frame is its tile moved down by `d` pixels, with the tile above filling in from the top. */
  lemma FrameShift(s: Spot, d: nat)
    requires d < 8
    ensures Frame(s, d) == Window(Above(s), Original(s), 8 - d)
  {
    var h := s.pic.height;
    if d == 0 {
      WindowLower(Above(s), Original(s));
    } else if !Top(s) {
      CropWindow(s.pic, s.x, h - 8 * s.j - 8, d);
    }
  }

  /** A window looking all the way down shows the lower tile. */
  lemma WindowLower(upper: Tile, lower: Tile)
    ensures Window(upper, lower, 8) == lower
  {
    TileEq(Window(upper, lower, 8), lower);
  }

  /** In a column of one tile every frame is the tile scrolled down cyclically by `d` rows. */
  lemma SingleRowScroll(s: Spot, d: nat)
    requires d < 8 && s.pic.height <= 8 && s.j == 0
    ensures Frame(s, d) == ScrollDown(Original(s), d)
  {
    FrameShift(s, d);
    assert Above(s) == Original(s);
    WindowSelf(Original(s), d);
  }

  /** The frames of a list of spots, in order. */
  function Frames(spots: seq<Spot>, d: nat): (fs: seq<Tile>)
    requires d < 8
    ensures |fs| == |spots|
  {
    seq(|spots|, k requires 0 <= k < |spots| => Frame(spots[k], d))
  }

  /** The first `n` tiles of the column at `x`, from the bottom up. */
  function ColumnSpots(p: Pic, x: int, n: nat): (ss: seq<Spot>)
    ensures |ss| == n
  {
    seq(n, j requires 0 <= j < n => Spot(p, x, j))
  }

  /** The tiles of the first `c` columns of `p`, column by column. */
  function PictureSpots(p: Pic, c: nat): seq<Spot> {
    if c == 0 then [] else PictureSpots(p, c - 1) + ColumnSpots(p, 8 * (c - 1), Count(p.height))
  }

  /** The scan order of vwrap_up.py over all pictures. */
  function Spots(images: seq<Pic>): seq<Spot> {
    if images == [] then []
    else
      var p := images[|images| - 1];
      Spots(images[..|images| - 1]) + PictureSpots(p, Count(p.width))
  }

  /**
   * The levels with the level loop corrected: level `i` holds the frame of every original
   * tile shifted by `i * step`, as the wraparound of the top tiles already does.
   */
  function Levels(images: seq<Pic>, step: nat): (ls: seq<seq<Tile>>)
    requires step in {1, 2, 4}
    ensures |ls| == 8 / step
    ensures forall i :: 0 <= i < |ls| ==> |ls[i]| == |Spots(images)|
  {
    seq(8 / step, i requires 0 <= i < 8 / step => Frames(Spots(images), Shift(step, i)))
  }

  /** With the corrected level loop the flattened list holds `8 / step` frames per original tile. */
  lemma FlatCount(images: seq<Pic>, step: nat)
    requires step in {1, 2, 4}
    ensures |SheetTilesFixed(images, step)| == (8 / step) * |Spots(images)|
  {
    FlattenUniform(Levels(images, step), |Spots(images)|);
  }

  /** One more frame per level, for the spot `s`, after the frames of `spots`. */
  lemma FramesSnoc(spots: seq<Spot>, s: Spot, d: nat)
    requires d < 8
    ensures Frames(spots + [s], d) == Frames(spots, d) + [Frame(s, d)]
  {
  }

  /** Frames of two lists of spots are the frames of their concatenation. */
  lemma FramesAppend(a: seq<Spot>, b: seq<Spot>, d: nat)
    requires d < 8
    ensures Frames(a + b, d) == Frames(a, d) + Frames(b, d)
  {
  }

  /** The next spot of the column continues its list. */
  lemma ColumnSnoc(p: Pic, x: int, n: nat)
    ensures ColumnSpots(p, x, n + 1) == ColumnSpots(p, x, n) + [Spot(p, x, n)]
  {
  }

  /**
   * `wraparound(model1, model2, new_images)`: the nested loops write output pixel
   * `(x, (y + d) % 8)` from `model2` when `y + d` passes the bottom edge and from `model1`
   * otherwise; the eight rows `y` land on eight different rows, so the result is `model1`
   * moved down by `d` with the bottom of `model2` entering at the top.
   */
  method WrapTile(model1: Tile, model2: Tile, d: nat) returns (t: Tile)
    requires 0 < d < 8
    ensures t == Window(model2, model1, 8 - d)
  {
    var im := new Pixel[8, 8]((_, _) => Black);
    ghost var w := Window(model2, model1, 8 - d);
    for x := 0 to 8
      invariant forall a, b :: 0 <= a < x && 0 <= b < 8 ==> im[a, b] == w[a][b]
    {
      WrapColumn(im, model1, model2, d, x);
    }
    t := seq(8, x requires 0 <= x < 8 reads im => seq(8, y requires 0 <= y < 8 reads im => im[x, y]));
    TileEq(t, w);
  }

  /** The inner loop of `wraparound` for column `x`: every row of the column is written once. */
  method WrapColumn(im: array2<Pixel>, model1: Tile, model2: Tile, d: nat, x: nat)
    requires im.Length0 == 8 && im.Length1 == 8 && 0 < d < 8 && x < 8
    modifies im
    ensures forall a, b :: 0 <= a < 8 && 0 <= b < 8 ==>
              im[a, b] == if a == x then Window(model2, model1, 8 - d)[x][b] else old(im[a, b])
  {
    ghost var w := Window(model2, model1, 8 - d);
    for y := 0 to 8
      invariant forall a, b :: 0 <= a < 8 && 0 <= b < 8 && a != x ==> im[a, b] == old(im[a, b])
      invariant forall r :: 0 <= r < 8 && (r - d) % 8 < y ==> im[x, r] == w[x][r]
    {
      var newY := y + d;
      var tile := if newY >= 8 then model2 else model1;
      newY := newY % 8;
      assert (newY - d) % 8 == y;
      im[x, newY] := tile[x][y];
    }
  }

  /** `wraparound` over the levels: level `i` (from 1) receives `model1` moved down by `i * step`. */
  method Wraparound(model1: Tile, model2: Tile, step: nat, levels: seq<seq<Tile>>) returns (levels': seq<seq<Tile>>)
    requires step in {1, 2, 4} && |levels| == 8 / step
    ensures |levels'| == |levels| && levels'[0] == levels[0]
    ensures forall i :: 1 <= i < |levels| ==> levels'[i] == levels[i] + [Window(model2, model1, 8 - Shift(step, i))]
  {
    levels' := levels;
    for i := 1 to 8 / step
      invariant |levels'| == |levels| && levels'[0] == levels[0]
      invariant forall k :: 1 <= k < i ==> levels'[k] == levels[k] + [Window(model2, model1, 8 - Shift(step, k))]
      invariant forall k :: i <= k < |levels| ==> levels'[k] == levels[k]
    {
      var t := WrapTile(model1, model2, Shift(step, i));
      levels' := levels'[i := levels'[i] + [t]];
    }
  }

  /**
   * The crops of a tile below the top of its column, with the level loop corrected to
   * `range(1, 8 // step)` and a crop `i * step` pixels higher for level `i`, as `wraparound`
   * does for the top tile.
   */
  method ShiftUp(p: Pic, x: int, y: int, step: nat, levels: seq<seq<Tile>>) returns (levels': seq<seq<Tile>>)
    requires step in {1, 2, 4} && |levels| == 8 / step
    ensures |levels'| == |levels| && levels'[0] == levels[0]
    ensures forall i :: 1 <= i < |levels| ==> levels'[i] == levels[i] + [Crop(p, x, y - Shift(step, i) - 8)]
  {
    levels' := levels;
    for i := 1 to 8 / step
      invariant |levels'| == |levels| && levels'[0] == levels[0]
      invariant forall k :: 1 <= k < i ==> levels'[k] == levels[k] + [Crop(p, x, y - Shift(step, k) - 8)]
      invariant forall k :: i <= k < |levels| ==> levels'[k] == levels[k]
    {
      var t := Crop(p, x, y - i * step - 8);
      levels' := levels'[i := levels'[i] + [t]];
    }
  }

  /**
   * The same loop as written: `for i in range(step, TILE_HEIGHT // step)` with a crop `i`
   * pixels higher. For `step` 2 level 1 receives nothing and levels 2 and 3 receive crops
   * 2 and 3 pixels higher, where the top tile's frames move 2, 4 and 6 pixels.
   */
  method ShiftUpAsWritten(p: Pic, x: int, y: int, step: nat, levels: seq<seq<Tile>>) returns (levels': seq<seq<Tile>>)
    requires step in {1, 2, 4} && |levels| == 8 / step
    ensures |levels'| == |levels| && levels'[0] == levels[0]
    ensures forall i :: 1 <= i < |levels| ==>
              levels'[i] == levels[i] + NonTopAsWritten(p, x, y, step, i)
  {
    levels' := levels;
    var i := step;
    while i < 8 / step
      invariant |levels'| == |levels| && levels'[0] == levels[0]
      invariant step <= i && (i > 8 / step ==> i == step)
      invariant forall k :: 1 <= k < |levels| && k < i ==> levels'[k] == levels[k] + NonTopAsWritten(p, x, y, step, k)
      invariant forall k :: i <= k < |levels| ==> levels'[k] == levels[k]
    {
      var t := Crop(p, x, y - i - 8);
      levels' := levels'[i := levels'[i] + [t]];
      i := i + 1;
    }
  }

  /** What level `i` receives from a tile below the top in the loop as written. */
  function NonTopAsWritten(p: Pic, x: int, y: int, step: nat, i: nat): (r: seq<Tile>)
    ensures i < step ==> r == []
    ensures step <= i <= 8 ==> r == [Window(Crop(p, x, y - 16), Crop(p, x, y - 8), 8 - i)]
  {
    if step <= i then
      var t := Crop(p, x, y - i - 8);
      assert i <= 8 ==> t == Window(Crop(p, x, y - 16), Crop(p, x, y - 8), 8 - i) by {
        if i <= 8 { CropWindow(p, x, y - 8, i); }
      }
      [t]
    else []
  }

  /**
   * A picture 8 wide and 16 high with `step` 2: as written, level 1 gets no frame of the
   * bottom tile and level 2 moves the bottom tile by 2 pixels while it moves the top tile by
   * 4, whereas the corrected level 2 moves both by 4.
   */
  lemma MixedShifts(p: Pic)
    requires p.width == 8 && p.height == 16
    ensures var bottom, top := Spot(p, 0, 0), Spot(p, 0, 1);
            && !Top(bottom) && Top(top)
            && NonTopAsWritten(p, 0, 16, 2, 1) == []
            && NonTopAsWritten(p, 0, 16, 2, 2) == [Window(Above(bottom), Original(bottom), 6)]
            && Frame(top, Shift(2, 2)) == Window(Above(top), Original(top), 4)
            && Frame(bottom, Shift(2, 2)) == Window(Above(bottom), Original(bottom), 4)
  {
    var bottom, top := Spot(p, 0, 0), Spot(p, 0, 1);
    CropWindow(p, 0, 8, 2);
    FrameShift(top, 4);
    FrameShift(bottom, 4);
  }

  /**
   * What one tile adds to level `i` in the scan as written: the tile itself to level 0;
   * for the top tile of a column the `wraparound` frame; for any other tile the crop of
   * the level loop of lines 105-108, or nothing when that loop skips the level.
   */
  function FrameAsWritten(s: Spot, step: nat, i: nat): seq<Tile>
    requires step in {1, 2, 4} && i < 8 / step
  {
    if i == 0 || Top(s) then [Frame(s, Shift(step, i))]
    else NonTopAsWritten(s.pic, s.x, s.pic.height - 8 * s.j, step, i)
  }

  /** What each of the tiles `spots` adds to level `i`, in order. */
  function FramesAsWritten(spots: seq<Spot>, step: nat, i: nat): (fs: seq<seq<Tile>>)
    requires step in {1, 2, 4} && i < 8 / step
    ensures |fs| == |spots|
  {
    seq(|spots|, k requires 0 <= k < |spots| => FrameAsWritten(spots[k], step, i))
  }

  /** Level `i` as the scan as written fills it from the tiles `spots`, in order. */
  function LevelAsWritten(spots: seq<Spot>, step: nat, i: nat): seq<Tile>
    requires step in {1, 2, 4} && i < 8 / step
  {
    Flatten(FramesAsWritten(spots, step, i))
  }

  /** `new_images` after the scan as written over all pictures. */
  function LevelsAsWritten(images: seq<Pic>, step: nat): (ls: seq<seq<Tile>>)
    requires step in {1, 2, 4}
    ensures |ls| == 8 / step
  {
    seq(8 / step, i requires 0 <= i < 8 / step => LevelAsWritten(Spots(images), step, i))
  }

  /** The tops of the columns among `spots`, in order. */
  function TopSpots(spots: seq<Spot>): seq<Spot> {
    if spots == [] then []
    else
      var s := spots[|spots| - 1];
      TopSpots(spots[..|spots| - 1]) + (if Top(s) then [s] else [])
  }

  /** Concatenating two lists of lists one after the other. */
  lemma {:induction false} FlattenAppend<T>(a: seq<seq<T>>, b: seq<seq<T>>)
    ensures Flatten(a + b) == Flatten(a) + Flatten(b)
    decreases |b|
  {
    if b == [] {
      assert a + b == a;
    } else {
      var n := |b| - 1;
      FlattenAppend(a, b[..n]);
      var ab := a + b;
      assert ab[..|ab| - 1] == a + b[..n] && ab[|ab| - 1] == b[n];
      assert Flatten(ab) == Flatten(a + b[..n]) + b[n];
    }
  }

  /** A list of one-element lists flattens to their elements. */
  lemma {:induction false} FlattenSingles<T>(gs: seq<seq<T>>)
    requires forall k :: 0 <= k < |gs| ==> |gs[k]| == 1
    ensures |Flatten(gs)| == |gs| && forall k :: 0 <= k < |gs| ==> Flatten(gs)[k] == gs[k][0]
    decreases |gs|
  {
    if gs != [] {
      FlattenSingles(gs[..|gs| - 1]);
    }
  }

  /** Filling a level from two lists of tiles one after the other. */
  lemma LevelAppend(a: seq<Spot>, b: seq<Spot>, step: nat, i: nat)
    requires step in {1, 2, 4} && i < 8 / step
    ensures LevelAsWritten(a + b, step, i) == LevelAsWritten(a, step, i) + LevelAsWritten(b, step, i)
  {
    assert FramesAsWritten(a + b, step, i) == FramesAsWritten(a, step, i) + FramesAsWritten(b, step, i);
    FlattenAppend(FramesAsWritten(a, step, i), FramesAsWritten(b, step, i));
  }

  /** One more tile adds its frames after those of the tiles before it. */
  lemma LevelSnoc(spots: seq<Spot>, s: Spot, step: nat, i: nat)
    requires step in {1, 2, 4} && i < 8 / step
    ensures LevelAsWritten(spots + [s], step, i) == LevelAsWritten(spots, step, i) + FrameAsWritten(s, step, i)
  {
    LevelAppend(spots, [s], step, i);
    var one := FramesAsWritten([s], step, i);
    assert one == [FrameAsWritten(s, step, i)];
    assert Flatten(one) == Flatten(one[..0]) + one[0];
  }

  /**
   * A level the loop `range(step, 8 // step)` skips, `1 <= i < step`, holds only the
   * wraparound frames of the column tops: with `step` 2 that is level 1, with `step` 4
   * level 1 too (the loop `range(4, 2)` is empty).
   */
  lemma {:induction false} LowLevel(spots: seq<Spot>, step: nat, i: nat)
    requires step in {1, 2, 4} && 1 <= i < step && i < 8 / step
    ensures LevelAsWritten(spots, step, i) == Frames(TopSpots(spots), Shift(step, i))
    decreases |spots|
  {
    if spots != [] {
      var n := |spots| - 1;
      var s := spots[n];
      LowLevel(spots[..n], step, i);
      assert spots == spots[..n] + [s];
      LevelSnoc(spots[..n], s, step, i);
      FramesAppend(TopSpots(spots[..n]), if Top(s) then [s] else [], Shift(step, i));
    }
  }

  /**
   * Level 0 and every level the loop visits, `step <= i`, hold one frame per tile: a top
   * tile moved down by `i * step` pixels, any other tile by only `i` pixels.
   */
  lemma HighLevel(spots: seq<Spot>, step: nat, i: nat)
    requires step in {1, 2, 4} && (i == 0 || step <= i) && i < 8 / step
    ensures var l := LevelAsWritten(spots, step, i);
            && |l| == |spots|
            && forall k :: 0 <= k < |spots| ==> l[k] == Frame(spots[k], if Top(spots[k]) then Shift(step, i) else i)
  {
    var fs := FramesAsWritten(spots, step, i);
    forall k | 0 <= k < |spots|
      ensures fs[k] == [Frame(spots[k], if Top(spots[k]) then Shift(step, i) else i)]
    {
    }
    FlattenSingles(fs);
  }

  /** With `step` 1 the loop as written and the corrected one coincide. */
  lemma StepOneAgrees(images: seq<Pic>)
    ensures LevelsAsWritten(images, 1) == Levels(images, 1)
  {
    var spots := Spots(images);
    forall i | 0 <= i < 8
      ensures LevelsAsWritten(images, 1)[i] == Levels(images, 1)[i]
    {
      HighLevel(spots, 1, i);
    }
  }

  /**
   * One picture 8 wide and 16 high with `step` 2: the levels as written hold 2, 1, 2 and
   * 2 frames, 7 in all, where the corrected levels hold 2 frames each, 8 in all.
   */
  lemma TallStepTwo(p: Pic)
    requires p.width == 8 && p.height == 16
    ensures var ls := LevelsAsWritten([p], 2);
            && |ls[0]| == 2 && |ls[1]| == 1 && |ls[2]| == 2 && |ls[3]| == 2
            && |SheetTiles([p], 2)| == 7
    ensures |SheetTilesFixed([p], 2)| == 8
  {
    var spots := Spots([p]);
    assert Count(p.width) == 1 && Count(p.height) == 2;
    assert PictureSpots(p, 1) == PictureSpots(p, 0) + ColumnSpots(p, 0, 2);
    assert Spots([p]) == Spots([p][..0]) + PictureSpots(p, 1);
    assert [p][..0] == [];
    assert spots == ColumnSpots(p, 0, 2);
    var bottom, top := Spot(p, 0, 0), Spot(p, 0, 1);
    assert spots == [bottom, top];
    assert !Top(bottom) && Top(top);
    assert TopSpots(spots) == [top] by {
      assert spots[..1] == [bottom];
      assert TopSpots([bottom]) == [] by {
        assert [bottom][..0] == [];
      }
    }
    var ls := LevelsAsWritten([p], 2);
    HighLevel(spots, 2, 0);
    LowLevel(spots, 2, 1);
    HighLevel(spots, 2, 2);
    HighLevel(spots, 2, 3);
    assert ls == [ls[0]] + ls[1..] && ls[1..] == [ls[1]] + ls[2..];
    assert ls[2..] == [ls[2]] + ls[3..] && ls[3..] == [ls[3]] + [];
    FlattenCons(ls[0], ls[1..]);
    FlattenCons(ls[1], ls[2..]);
    FlattenCons(ls[2], ls[3..]);
    FlattenCons(ls[3], []);
    FlatCount([p], 2);
  }

  /**
   * One tile of the scan (lines 99-110): its crop joins level 0, the bottom tile of a column
   * becomes `wrap_tile`, and the other levels receive what the loop as written gives them.
   */
  method VisitTile(p: Pic, x: int, y: int, step: nat, wrap: Tile, levels: seq<seq<Tile>>, ghost j: nat)
    returns (wrap': Tile, levels': seq<seq<Tile>>)
    requires step in {1, 2, 4} && |levels| == 8 / step
    requires y == p.height - 8 * j && y > 0
    requires j >= 1 ==> wrap == Crop(p, x, p.height - 8)
    ensures wrap' == Crop(p, x, p.height - 8)
    ensures |levels'| == |levels|
    ensures forall i :: 0 <= i < |levels| ==> levels'[i] == levels[i] + FrameAsWritten(Spot(p, x, j), step, i)
  {
    var tmp := Crop(p, x, y - 8);
    levels' := levels[0 := levels[0] + [tmp]];
    wrap' := wrap;
    if y == p.height {
      wrap' := tmp;
    }
    var s := Spot(p, x, j);
    assert Top(s) <==> !(p.height > 8 && y - 8 > 0);
    if p.height > 8 && y - 8 > 0 {
      levels' := ShiftUpAsWritten(p, x, y, step, levels');
    } else {
      levels' := Wraparound(tmp, wrap', step, levels');
    }
  }

  /** The loop over one column, from its bottom tile up. */
  method ScanColumn(p: Pic, x: int, step: nat, levels: seq<seq<Tile>>) returns (levels': seq<seq<Tile>>)
    requires step in {1, 2, 4} && |levels| == 8 / step
    ensures |levels'| == |levels|
    ensures forall i :: 0 <= i < |levels| ==>
              levels'[i] == levels[i] + LevelAsWritten(ColumnSpots(p, x, Count(p.height)), step, i)
  {
    levels' := levels;
    var wrap := BlackTile;
    var y: int := p.height;
    ghost var j := 0;
    while y > 0
      invariant y == p.height - 8 * j && j <= Count(p.height)
      invariant y > 0 <==> j < Count(p.height)
      invariant j >= 1 ==> wrap == Crop(p, x, p.height - 8)
      invariant |levels'| == |levels|
      invariant forall i :: 0 <= i < |levels| ==> levels'[i] == levels[i] + LevelAsWritten(ColumnSpots(p, x, j), step, i)
    {
      ghost var before := levels';
      wrap, levels' := VisitTile(p, x, y, step, wrap, levels', j);
      forall i | 0 <= i < |levels|
        ensures levels'[i] == levels[i] + LevelAsWritten(ColumnSpots(p, x, j + 1), step, i)
      {
        ColumnSnoc(p, x, j);
        LevelSnoc(ColumnSpots(p, x, j), Spot(p, x, j), step, i);
        assert levels'[i] == before[i] + FrameAsWritten(Spot(p, x, j), step, i);
      }
      y, j := y - 8, j + 1;
    }
  }

  /** The loop over the columns of one picture, left to right. */
  method ScanPicture(p: Pic, step: nat, levels: seq<seq<Tile>>) returns (levels': seq<seq<Tile>>)
    requires step in {1, 2, 4} && |levels| == 8 / step
    ensures |levels'| == |levels|
    ensures forall i :: 0 <= i < |levels| ==>
              levels'[i] == levels[i] + LevelAsWritten(PictureSpots(p, Count(p.width)), step, i)
  {
    levels' := levels;
    var x := 0;
    ghost var c := 0;
    while x < p.width
      invariant x == 8 * c && c <= Count(p.width)
      invariant x < p.width <==> c < Count(p.width)
      invariant |levels'| == |levels|
      invariant forall i :: 0 <= i < |levels| ==> levels'[i] == levels[i] + LevelAsWritten(PictureSpots(p, c), step, i)
    {
      ghost var before := levels';
      levels' := ScanColumn(p, x, step, levels');
      forall i | 0 <= i < |levels|
        ensures levels'[i] == levels[i] + LevelAsWritten(PictureSpots(p, c + 1), step, i)
      {
        LevelAppend(PictureSpots(p, c), ColumnSpots(p, x, Count(p.height)), step, i);
        assert levels'[i] == before[i] + LevelAsWritten(ColumnSpots(p, x, Count(p.height)), step, i);
      }
      x, c := x + 8, c + 1;
    }
  }

  /** The scan over all pictures (lines 87-112): the levels are exactly `LevelsAsWritten(images, step)`. */
  method Scan(images: seq<Pic>, step: nat) returns (levels: seq<seq<Tile>>)
    requires step in {1, 2, 4}
    ensures levels == LevelsAsWritten(images, step)
  {
    levels := seq(8 / step, _ => []);
    for f := 0 to |images|
      invariant |levels| == 8 / step
      invariant forall i :: 0 <= i < |levels| ==> levels[i] == LevelAsWritten(Spots(images[..f]), step, i)
    {
      var p := images[f];
      levels := ScanPicture(p, step, levels);
      assert images[..f + 1][..f] == images[..f];
      forall i | 0 <= i < |levels|
        ensures levels[i] == LevelAsWritten(Spots(images[..f + 1]), step, i)
      {
        LevelAppend(Spots(images[..f]), PictureSpots(p, Count(p.width)), step, i);
      }
    }
    assert images[..|images|] == images;
  }

  /** `list(chain(*new_images))` as the script builds it: level 0, then level 1, and so on. */
  function SheetTiles(images: seq<Pic>, step: nat): (t: seq<Tile>)
    requires step in {1, 2, 4}
    ensures step == 1 ==> t == SheetTilesFixed(images, 1)
  {
    StepOneAgrees(images);
    Flatten(LevelsAsWritten(images, step))
  }

  /** The flattened list with the corrected level loop. */
  function SheetTilesFixed(images: seq<Pic>, step: nat): seq<Tile>
    requires step in {1, 2, 4}
  {
    Flatten(Levels(images, step))
  }

  /**
   * The whole script. `open` stands for `Image.open` on each input file. A negative width
   * passes the checks, and `Image.new` then refuses it.
   */
  method Script(argv: seq<string>, open: string -> Pic) returns (exit: Exit, sheet: array2?<Pixel>)
    ensures ParseUp(argv).Err? ==> exit == Stopped(ParseUp(argv).error)
    ensures ParseUp(argv).Ok? && ParseUp(argv).value.width < 0 ==> exit == Stopped(Crash)
    ensures exit.Saved? <==> ParseUp(argv).Ok? && ParseUp(argv).value.width > 0
    ensures exit.Saved? ==>
              var p := ParseUp(argv).value;
              var tiles := SheetTiles(OpenAll(p.inputs, open), p.step);
              && exit.output == p.output && sheet != null && fresh(sheet)
              && sheet.Length0 == p.width && sheet.Length1 == SheetHeight(|tiles|, p.width)
              && forall px, py :: 0 <= px < p.width && 0 <= py < sheet.Length1 ==>
                   sheet[px, py] == SheetPixel(tiles, p.width / 8, px, py)
  {
    sheet := null;
    match ParseUp(argv)
    case Err(why) =>
      exit := Stopped(why);
    case Ok(p) =>
      var levels := Scan(OpenAll(p.inputs, open), p.step);
      var tiles := Flatten(levels);
      if p.width < 0 {
        exit := Stopped(Crash);
      } else {
        assert p.width >= 8 && p.width % 8 == 0;
        sheet := Pack(tiles, p.width, SheetHeight(|tiles|, p.width));
        exit := Saved(p.output);
      }
  }

  /**
   * The height computed at line 116 leaves room for every frame: frame `k` of the flattened
   * list shows whole at column `k % (width / 8)` and row `k / (width / 8)` of the sheet.
   */
  lemma EveryFrameShown(images: seq<Pic>, step: nat, width: nat, k: nat, x: nat, y: nat)
    requires step in {1, 2, 4} && width >= 8 && width % 8 == 0
    requires k < |SheetTiles(images, step)| && x < 8 && y < 8
    ensures var tiles, cols := SheetTiles(images, step), width / 8;
            var px, py := 8 * SlotColumn(k, cols) + x, 8 * SlotRow(k, cols) + y;
            && px < width && py < SheetHeight(|tiles|, width)
            && SheetPixel(tiles, cols, px, py) == tiles[k][x][y]
  {
    Shown(SheetTiles(images, step), width / 8, k, x, y);
  }
}
