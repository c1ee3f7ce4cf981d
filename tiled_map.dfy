/**
 * The map document tilegen.py writes for the Tiled editor: the grid size in tiles, the
 * tileset entry that points at the montage image, and one layer whose data is the list of
 * map ids the deduplication produced. Only the computed fields are modelled; the fixed
 * literal fields and the JSON text are not.
 */
module TiledMap {
  import opened Text
  import opened TileArgs
  import opened Registry
  import opened Montage

  datatype Tileset = Tileset(columns: nat, firstGid: nat, image: string, imageWidth: nat,
                             imageHeight: nat, name: string, tileCount: int,
                             tileWidth: nat, tileHeight: nat)

  datatype Layer = Layer(width: nat, height: nat, data: seq<nat>)

  datatype MapDoc = MapDoc(width: nat, height: nat, tileWidth: nat, tileHeight: nat,
                           tileset: Tileset, layer: Layer)

  /** How many whole tiles of size `t` fit in `n` pixels: Python's `n // t` for positive `t`. */
  function Fit(n: nat, t: nat): (k: nat)
    requires t >= 1
    ensures k * t <= n < k * t + t
  {
    n / t
  }

  /** Position `g` lies at row `g / cols`, column `g % cols` of a grid `cols` wide. */
  lemma RowColumn(g: nat, cols: nat) returns (row: nat, col: nat)
    requires cols >= 1
    ensures row == g / cols && col == g % cols && row * cols + col == g && col < cols
  {
    row, col := g / cols, g % cols;
  }

  /**
   * The `tiled` dictionary of tilegen.py: `imageW` and `imageH` are the size of the big
   * image, `deleted` the number of removed duplicates and `tiles` the map ids.
   */
  function Document(imageW: nat, imageH: nat, cfg: Config, deleted: nat, tiles: seq<nat>): (m: MapDoc)
    requires cfg.tile.w >= 1 && cfg.tile.h >= 1
    ensures m.width * cfg.tile.w <= imageW < m.width * cfg.tile.w + cfg.tile.w
    ensures m.height * cfg.tile.h <= imageH < m.height * cfg.tile.h + cfg.tile.h
    ensures m.tileset.columns * cfg.tile.w <= cfg.tileset.w < m.tileset.columns * cfg.tile.w + cfg.tile.w
    ensures m.tileset.tileCount + deleted == m.width * m.height
    ensures m.layer == Layer(m.width, m.height, tiles)
    ensures m.tileWidth == m.tileset.tileWidth == cfg.tile.w && m.tileHeight == m.tileset.tileHeight == cfg.tile.h
    ensures m.tileset.firstGid == 1 && m.tileset.name == cfg.prefix
    ensures m.tileset.imageWidth == cfg.tileset.w && m.tileset.imageHeight == cfg.tileset.h
    ensures Join(cfg.tileDir, m.tileset.image) == TilesetPath(cfg.tileDir, cfg.tilesetArg)
  {
    var w, h := Fit(imageW, cfg.tile.w), Fit(imageH, cfg.tile.h);
    MapDoc(w, h, cfg.tile.w, cfg.tile.h,
           Tileset(Fit(cfg.tileset.w, cfg.tile.w), 1, "tileset" + cfg.tilesetArg + ".png",
                   cfg.tileset.w, cfg.tileset.h, cfg.prefix, w * h - deleted, cfg.tile.w, cfg.tile.h),
           Layer(w, h, tiles))
  }

  /**
   * When the listing holds one file per grid cell, the tile count is the number of distinct
   * tiles kept, the layer has one id per cell and every id names one of the kept tiles.
   */
  lemma TileCountKept<C>(imageW: nat, imageH: nat, cfg: Config, names: seq<string>, sum: string -> C)
    requires cfg.tile.w >= 1 && cfg.tile.h >= 1
    requires |TileFiles(names)| == Fit(imageW, cfg.tile.w) * Fit(imageH, cfg.tile.h)
    ensures var r := Run(cfg.tileDir, names, |names|, sum);
            var m := Document(imageW, imageH, cfg, |r.removed|, r.ids);
            && m.tileset.tileCount == |r.keys| == |r.values|
            && |m.layer.data| == m.width * m.height
            && forall k :: 0 <= k < |m.layer.data| ==> 1 <= m.layer.data[k] <= m.tileset.tileCount
  {
    var r := Run(cfg.tileDir, names, |names|, sum);
    var cs := Checksums(cfg.tileDir, TileFiles(names), sum);
    var m := Document(imageW, imageH, cfg, |r.removed|, r.ids);
    DedupKeys(cfg.tileDir, names, sum);
    assert |r.removed| + |r.keys| == |cs| == m.width * m.height;
    DedupValues(cfg.tileDir, names, sum);
    assert m.tileset.tileCount == |r.keys| == |r.values|;
    DedupIds(cfg.tileDir, names, sum);
    assert |m.layer.data| == |cs|;
  }

  /**
   * The map id `g + 1` of the `k`-th processed file selects the kept value of the first file
   * `j` with the same checksum, which comes no later in the listing.
   */
  lemma GidFirstFile<C>(dir: string, names: seq<string>, sum: string -> C, k: nat) returns (g: nat, j: nat)
    requires k < |TileFiles(names)|
    ensures var files := TileFiles(names);
            var cs, r := Checksums(dir, files, sum), Run(dir, names, |names|, sum);
            && |r.ids| == |cs| && r.ids[k] == g + 1 && g < |r.values| == |FirstPositions(cs)|
            && FirstPositions(cs)[g] == j && j <= k && cs[j] == cs[k]
            && r.values[g] == TileNumber(files[j])
  {
    var files := TileFiles(names);
    var cs, r := Checksums(dir, files, sum), Run(dir, names, |names|, sum);
    IdAt(dir, names, sum, k);
    g := r.ids[k] - 1;
    ValueAt(dir, names, sum, g);
    j := FirstPositions(cs)[g];
  }

  /**
   * Map id `g + 1` stands for the tile at position `g` of the tileset, counted row by row
   * across `cols` columns: the montage row `g / cols`, column `g % cols` holds the image of
   * the first file `j` whose checksum the map cell carries.
   */
  lemma GidShowsTile<C>(tileDir: string, prefix: string, names: seq<string>, sum: string -> C, cols: nat, k: nat)
    returns (g: nat, j: nat)
    requires cols >= 1 && k < |TileFiles(names)|
    ensures var files := TileFiles(names);
            var cs, r := Checksums(tileDir, files, sum), Run(tileDir, names, |names|, sum);
            var rows := Chunks(TilePaths(tileDir, prefix, r.values), cols);
            && |r.ids| == |cs| && r.ids[k] == g + 1
            && j <= k && j < |cs| && cs[j] == cs[k]
            && g / cols < |rows| && g % cols < |rows[g / cols]|
            && rows[g / cols][g % cols] == TilePath(tileDir, prefix, TileNumber(files[j]))
  {
    var r := Run(tileDir, names, |names|, sum);
    g, j := GidFirstFile(tileDir, names, sum, k);
    var row, col := RowColumn(g, cols);
    ChunksIndex(TilePaths(tileDir, prefix, r.values), cols, row, col);
  }
}
