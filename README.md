# tiletools in Dafny

A verified model of the three scripts of tiletools, which prepare tile graphics for
8x8-tile games and the Tiled map editor.

- **tilegen.py** cuts a big image into tiles. It removes the tiles whose checksum was
  already seen, writes the list of removed files, and builds the ImageMagick `convert`
  command that lays the kept tiles out as a tileset. It also builds the Tiled map
  document: the grid size, the tileset entry, and one layer of map ids.
- **vwrap_up.py** takes input pictures and cuts them into 8x8 tiles, column by column
  and from the bottom of each column up. It makes `8 / step` animation levels, which go
  one after the other on a sheet `width` pixels wide.
  - The top tile of each column is moved down by `i * step` pixels on level `i`. The
    pixels that enter at the top come from the bottom tile, so the column wraps around.
  - Every other tile is handled by a second loop, which is modelled as written. It starts
    at level `step`, not 1, and takes the crop only `i` pixels higher. With a step above 1
    those tiles are missing from the levels below `step`, and they move by `i` pixels
    instead of `i * step`.
  - `VwrapUp.LevelsAsWritten` is what the script builds. `VwrapUp.Levels` is the corrected
    reference, and the two are equal for step 1.
- **vwrap.py**, the earlier wraparound script, cuts the pictures row by row. It follows
  each tile with `8 / step - 1` copies whose rows are rotated up by 1, 2, ... rows. The
  step only sets how many copies there are, not how far they move.
  - The rotation is taken modulo the picture's height. For a picture taller than 8
    pixels, `putpixel` then fails and the script crashes. For a picture shorter than 8,
    several rows land on the same row of the copy, and the last one written stays.
  - The sheet height divides the tile count by the width in pixels rather than in tiles,
    so most sheets are too short.
  - `Vwrap.Script` is the script as written. `Vwrap.ScriptFixed` takes the copies modulo
    8, uses the height formula of vwrap_up.py, and reads the command line without `--`
    as the comment in the script says.
- Both wrap scripts read the command line as written, so without `--` neither of them
  gets to the pictures.

## Modules

| file | module | what it holds |
|---|---|---|
| wrappers.dfy | Wrappers | `Option` and `Result` |
| text.dfy | Text | ASCII digit runs (`\d+`, `[0-9]+`), decimal values, first-occurrence search, POSIX path joining |
| tile_args.dfy | TileArgs | the argument checks of tilegen.py |
| registry.dfy | Registry | tilegen.py's checksum deduplication, as a function over the directory listing and as the loop that computes it |
| montage.dfy | Montage | the `convert` word list for the tileset |
| tiled_map.dfy | TiledMap | the computed fields of the map document and how map ids relate to the tileset |
| raster.dfy | Raster | pixels, pictures, 8x8 tiles, crops, cyclic row scrolling, and the window over two stacked tiles |
| sheet.dfy | Sheet | the output sheet: its height, and the paste loop that fills it, on an `array2` |
| wrap_args.dfy | WrapArgs | the command line shared by vwrap_up.py and vwrap.py |
| vwrap_up.dfy | VwrapUp | the level frames, the `wraparound` pixel loop, the scan, and the whole script |
| vwrap.dfy | Vwrap | the copies, the scan, and the whole script |

### Modelling choices

- External inputs are parameters of the model:
  - The picture behind a file name is a function `open`.
  - The checksum ImageMagick's `identify` prints for a path is a function `sum`.
  - The directory listing is a sequence of names.
  - Whether a path exists is a predicate `present`.
- How a script ends is an `Exit`: either it stopped before writing anything (the usage
  text, a failed check, or an uncaught exception), or it saved the sheet.
- The pixel loops that change an image in place are methods over `array2<Pixel>`. The
  scan loops are methods whose postconditions tie what they build to specification
  functions such as `VwrapUp.LevelsAsWritten` and `Vwrap.SheetTiles`.

## Model

| member | source | states |
|---|---|---|
| Text.ValueZero | tilegen.py:46-48 | a run of digits reads as zero exactly when every digit is `0`: the case the `min(...) <= 0` check rejects |
| Text.RunEnd | tilegen.py:43 | the greedy `\d+` from a position ends at the first non-digit, and everything it covers is a digit |
| Text.RunEndUnique | tilegen.py:43 | any digit-only stretch followed by a non-digit or the end is the greedy run: the match is unique |
| Text.FirstDigitFrom | tilegen.py:78 | the first digit at or after a position, or none exactly when no digit follows |
| Text.FirstDigitRun | tilegen.py:78 | `re.search("[0-9]+")` fails exactly when the name has no digit; otherwise it is a non-empty digit string |
| Text.FirstDigitRunLeftmost | tilegen.py:78 | the match is the maximal digit run starting at the leftmost digit |
| Text.ValueShow | tilegen.py:46 | `int` of the decimal text of `n` is `n` |
| Text.IndexOf | tilegen.py:89 | `list.index`: a position holding the element with no earlier occurrence |
| Text.IndexOfNew | tilegen.py:88-89 | a key appended to the ordered dict gets the old length as its index |
| Text.Join | tilegen.py:80 | `os.path.join` on POSIX: an empty directory gives the name, a name starting with `/` replaces the directory, and otherwise the two are joined with one separator unless the directory already ends with one |
| Text.JoinParts | tilegen.py:80 | for a relative name, as every name of the listing is, the joined path starts with the directory and ends with the name, with one separator between them unless the directory already ends with one |
| Text.JoinAbsolute | tilegen.py:97 | a name starting with `/` is the whole joined path, whatever the directory |
| TileArgs.FirstMatchFrom | tilegen.py:43 | the leftmost position where `(\d+)x(\d+)` matches, or none exactly when it matches nowhere |
| TileArgs.SearchDims | tilegen.py:43-46 | no dimensions exactly when the pattern matches nowhere; otherwise the groups of the leftmost match |
| TileArgs.SearchDimsShow | tilegen.py:43-46 | the text `WxH` of any two numbers is read back as `(W, H)` |
| TileArgs.ParseDims | tilegen.py:43-48 | the "wrong dimensions" error exactly when no match, the "greater than zero" error exactly when a matched side is zero, otherwise both sides at least 1 |
| TileArgs.SplitOutput | tilegen.py:50-54 | no split exactly when the argument has no separator; otherwise the directory (without a separator), the separator and the prefix rebuild the argument |
| TileArgs.SplitOutputJoin | tilegen.py:50-54 | a directory without a separator, a separator and a prefix split back into that directory and prefix |
| TileArgs.Configure | tilegen.py:20-64 | the checks run in the script's order: each error occurs exactly when every earlier check passes and its own fails (wrong argument count, missing image, tile size without `WxH` or with a zero side, output without a directory, existing directory, tileset size without `WxH` or with a zero side); success exactly when all pass, and then the config holds `argv[1]`, the parsed sizes, `argv[4]`, and the directory and prefix of `argv[3]` |
| TileArgs.ConfigureAccepts | tilegen.py:20-64 | a command line written from an existing image, two `WxH` sizes of at least 1 and `dir/prefix` with a new directory is accepted, with exactly those parts |
| Registry.TileFiles | tilegen.py:77-79 | every processed file holds a digit, and there are no more of them than names |
| Registry.TileFilesMembers | tilegen.py:77-79 | a name is processed exactly when it is in the listing and contains a digit |
| Registry.TileFilesAppend | tilegen.py:77-79 | the files keep the listing order: the files of two listings in turn are the files of their concatenation |
| Registry.TileNumber | tilegen.py:78 | the tile number of a processed file is a non-empty digit string |
| Registry.Checksums | tilegen.py:80-81 | one checksum per processed file |
| Registry.ChecksumsAt | tilegen.py:80-81 | checksum `k` is the `identify` checksum of the path of processed file `k` |
| Registry.FirstPositions | tilegen.py:82-88 | one position per distinct checksum, pointing at a file that has that checksum |
| Registry.DistinctMember | tilegen.py:82-88 | a checksum is kept exactly when some processed file has it |
| Registry.DistinctNoDup | tilegen.py:82-88 | the kept checksums are pairwise different |
| Registry.FirstPositionsFirst | tilegen.py:82-88 | each kept checksum's position is its first occurrence, and the positions increase |
| Registry.DuplicatesCount | tilegen.py:82-86 | removed files plus kept checksums make up all processed files |
| Registry.Register | tilegen.py:82-89 | a seen checksum adds the path to the removal list; a new one is appended with its tile number; either way the map id is the checksum's 1-based position, which is unchanged for a seen one and one past the old keys for a new one |
| Registry.Visit1 | tilegen.py:78-89 | one pass of the loop: a name without a digit leaves the registry as it is; any other name is registered with its path, its tile number and its checksum |
| Registry.Run | tilegen.py:77-89 | the loop state after the first `n` names of the listing: one pass per name, in listing order |
| Registry.RunSizes | tilegen.py:82-89 | one value per key, and one map id per key or removed path |
| Registry.Dedup | tilegen.py:72-89 | the loop computes exactly the registry `Run` describes, and `deleted` counts the removed paths |
| Registry.SkipStep | tilegen.py:78-79 | a name without a digit changes nothing |
| Registry.TileStep | tilegen.py:78-89 | a name with a digit adds one file, one checksum, and one `Register` step |
| Registry.RunKeys | tilegen.py:82-88 | the kept checksums are the distinct checksums in first-seen order |
| Registry.RunIds | tilegen.py:89 | one map id per processed file: the 1-based position of its checksum among the kept ones |
| Registry.RunRemoved | tilegen.py:82-86 | the removal list is the paths of the files whose checksum was seen before |
| Registry.RunValues | tilegen.py:88 | each kept value is the tile number of the first file with that checksum |
| Registry.Whole | tilegen.py:72-89 | all four of the above for the whole listing |
| Registry.DedupKeys | tilegen.py:82-88 | the kept checksums are exactly those present, without repeats, and together with the removed files they account for every file |
| Registry.DedupIds | tilegen.py:89 | every map id lies in `1..kept` and names the file's own checksum |
| Registry.DedupIdsSame | tilegen.py:89 | two files get the same map id exactly when their checksums are equal |
| Registry.DedupValues | tilegen.py:82-88 | value `m` is the tile number of the file where checksum `m` first occurs, and those files come in listing order |
| Registry.IdAt | tilegen.py:89 | the map id of file `k` names its checksum |
| Registry.ValueAt | tilegen.py:88 | the value of kept checksum `m` comes from its first file |
| Registry.AllIdentical | tilegen.py:82-89 | when every tile is the same, one tile is kept, every map id is 1, and all other files are removed |
| Montage.Chunks | tilegen.py:94-103 | the rows of the montage are never empty |
| Montage.TilePaths | tilegen.py:97 | one tile path per kept value, in order |
| Montage.TilePath | tilegen.py:97 | the file of tile number `v`: the tile directory joined with `prefix + v + ".png"` |
| Montage.TilePathRootedPrefix | tilegen.py:97 | a prefix starting with `/` (the output argument `out//t`) makes the tile path `prefix + v + ".png"`, without the tile directory |
| Montage.ChunksFlatten | tilegen.py:94-103 | read row by row, the montage rows list every kept tile once, in order |
| Montage.ChunksShape | tilegen.py:98-103 | every row but the last has `tileset_w // tile_w` tiles; the last has between one and that many |
| Montage.ChunksIndex | tilegen.py:94-101 | tile `r * cols + c` sits in row `r`, column `c` |
| Montage.ChunksNoColumns | tilegen.py:99 | with zero columns (a tileset narrower than a tile) `line` never matches, so everything goes in one row |
| Montage.ChunksRows | tilegen.py:98-103 | rows of that shape are exactly the rows the loop produces from their concatenation |
| Montage.Command | tilegen.py:91-106 | the command is `convert`, each row as `( paths... +append )`, then the background, `-append` and the tileset path |
| Montage.TilesetPath | tilegen.py:105 | the tileset image: the tile directory joined with `"tileset" + argv[4] + ".png"` |
| Montage.AddTile | tilegen.py:95-101 | one iteration keeps the invariant: the closed rows are full, the open row is shorter than a row, and the words so far bracket them |
| Montage.LastRow | tilegen.py:102-103 | after the loop, closing a non-empty open row gives exactly the rows of the tile list |
| TiledMap.Fit | tilegen.py:120-121 | `n // t` is the number of whole tiles that fit |
| TiledMap.Document | tilegen.py:109-161 | grid width and height are the whole tiles of the image; the columns are the whole tiles of the tileset; tile count plus deleted equals the grid cells; the layer carries the map ids; the tileset image sits in the tile directory |
| TiledMap.TileCountKept | tilegen.py:141-158 | with one file per cell, the tile count is the number of kept tiles, the layer has one id per cell, and every id is within the tileset |
| TiledMap.GidFirstFile | tilegen.py:82-89 | the id of file `k` selects the value of the first file with the same checksum, which comes no later |
| TiledMap.GidShowsTile | tilegen.py:89-103 | map id `g + 1` shows, at row `g / cols` and column `g % cols` of the montage, the tile file of the first file with the cell's checksum |
| Raster.OpenAll | vwrap_up.py:91-92 | one opened picture per input name, in order |
| Raster.Crop | vwrap_up.py:99 | a crop's pixel `(x, y)` is the picture's pixel at the offset, black outside the picture |
| Raster.ScrollAt | vwrap_up.py:37-47 | scrolling down by `s` moves row `y` to row `(y + s) % 8` |
| Raster.ScrollUpAt | vwrap.py:60-68 | scrolling up by `k` puts row `(y + k) % 8` in row `y` |
| Raster.ScrollCompose | vwrap.py:52-68 | two scrolls are one scroll by the sum |
| Raster.ScrollZero | vwrap.py:52-68 | scrolling by 0 or by 8 changes nothing |
| Raster.ScrollInverse | vwrap.py:52-68 | scrolling back undoes a scroll |
| Raster.ScrollPeriod | vwrap.py:52-68 | scrolls repeat every 8 rows |
| Raster.Window | vwrap_up.py:37-47 | the window's row `y` comes from the upper tile above the offset and from the lower tile below it |
| Raster.WindowSelf | vwrap_up.py:40-41 | a window over a tile stacked on itself is the tile scrolled cyclically |
| Raster.CropWindow | vwrap_up.py:106 | a crop `s` pixels higher is the window over the tile above and the tile itself |
| Sheet.CeilDiv | vwrap_up.py:116 | the least `q` with `a <= q * b` |
| Sheet.SheetHeight | vwrap_up.py:116 | `ceil(n * 8 / width) * 8` is 8 times the number of tile rows of `width / 8` tiles that hold `n` tiles |
| Sheet.RowWithin | vwrap_up.py:116 | the row of every tile is below that count |
| Sheet.PasteStep | vwrap_up.py:125-129 | pasting the next tile changes exactly the pixels of its box in the next slot |
| Sheet.Shown | vwrap_up.py:122-129 | tile `k` shows whole in column `k % cols`, row `k / cols`, inside the sheet |
| Sheet.Paste | vwrap_up.py:128 | the tile replaces the pixels of its box, clipped to the sheet, and nothing else changes |
| Sheet.Pack | vwrap_up.py:119-129 | a fresh black sheet of the given size in which every pixel is the pixel of the tile whose slot covers it, black past the last tile |
| WrapArgs.Slice | vwrap_up.py:58 | Python's clamped slice: the ordinary slice when the bounds fit, never longer than the list |
| WrapArgs.ParseInt | vwrap_up.py:72-73 | `int()` succeeds exactly on an optional sign followed by digits; the sign decides the sign of the value |
| WrapArgs.ParseUnsigned | vwrap_up.py:72-73 | `int()` of unsigned digits is their decimal value |
| WrapArgs.ParseNegative | vwrap_up.py:72-73 | `int()` of a minus sign followed by digits is minus their decimal value |
| WrapArgs.ParseRender | vwrap_up.py:72-73 | `int` reads any rendered integer back |
| WrapArgs.Validate | vwrap_up.py:75-85 | the checks pass exactly when the width is non-zero and divisible by 8 and the step is 1, 2 or 4; a zero width is reported as such |
| WrapArgs.NegativeWidthPasses | vwrap_up.py:79 | Python's `%` lets every negative multiple of 8 pass as a width |
| WrapArgs.SplitAsWritten | vwrap_up.py:57-67 | the split as written: around the first `--`, else `argv[1:2]` and `argv[2:4]` |
| WrapArgs.SeparatorlessAsWritten | vwrap_up.py:64-67 | without `--` the values as written are at most two, so the unpacking into three names always fails; the corrected split has three values once there are five arguments |
| WrapArgs.Split | vwrap_up.py:56-67 | the corrected split: around the first `--`, else `argv[1:2]` and `argv[2:5]` |
| WrapArgs.Parse | vwrap_up.py:53-85 | for a given split and unpack failure: the usage text exactly for `--help` or fewer than four words; otherwise a value count other than three gives the unpack failure, a value `int()` rejects gives `Crash`, a failed check gives its own error, and when all pass the result is the inputs, the output name and the two numbers |
| WrapArgs.ParseUp | vwrap_up.py:53-85 | vwrap_up.py as written: it only gets past the arguments when the command line holds `--`, and a count other than three after `--` reports a missing parameter |
| WrapArgs.ParseVwrap | vwrap.py:8-33 | vwrap.py as written: it only gets past the arguments when the command line holds `--`, and a count other than three after `--` crashes |
| WrapArgs.ParseUpFixed | vwrap_up.py:53-85 | vwrap_up.py's argument handling with the corrected split `argv[2:5]` for the form without `--` |
| WrapArgs.ParseVwrapFixed | vwrap.py:8-33 | vwrap.py's argument handling with the corrected split `argv[2:5]` for the form without `--` |
| WrapArgs.FixedWithSeparator | vwrap_up.py:57-63 | with `--` on the command line, the corrected argument handling of both scripts is the handling as written |
| WrapArgs.ScriptsAgree | vwrap.py:8-33 | vwrap.py handles its arguments like vwrap_up.py, except that it crashes where vwrap_up.py reports a missing parameter |
| WrapArgs.NoSeparator | vwrap_up.py:64-70 | without `--`, one input and two values: vwrap_up.py reports a missing parameter, vwrap.py crashes |
| WrapArgs.CommandLine | vwrap_up.py:19 | the usage line `script input_images -- output_image width step` has five words more than there are inputs |
| WrapArgs.ParseCommandLine | vwrap_up.py:53-85 | any valid parameters written as a usage line are read back unchanged by both scripts |
| WrapArgs.MissingStep | vwrap_up.py:57-63 | a usage line without its step has two values after `--`: vwrap_up.py reports a missing parameter and vwrap.py (line 15) crashes |
| WrapArgs.WidthNotNumber | vwrap_up.py:72 | a width that `int()` rejects makes both scripts crash before any check |
| WrapArgs.ParseSeparatorless | vwrap_up.py:56-73 | with the corrected split, `script input output width step` parses to those parameters |
| VwrapUp.Shift | vwrap_up.py:37 | level `i` moves by `i * step`, less than a tile |
| VwrapUp.FrameShift | vwrap_up.py:99-110 | every frame is its tile moved down by the level's shift, with the tile above (wrapping around to the bottom tile) filling in from the top |
| VwrapUp.WindowLower | vwrap_up.py:100 | level 0 shows the tile itself |
| VwrapUp.SingleRowScroll | vwrap_up.py:101-110 | in a picture one tile high, every frame is the tile scrolled cyclically |
| VwrapUp.Levels | vwrap_up.py:87-112 | corrected reference: `8 / step` levels, each with one frame per original tile |
| VwrapUp.FlatCount | vwrap_up.py:115 | with the corrected levels the flattened list has `8 / step` frames per original tile |
| VwrapUp.WrapColumn | vwrap_up.py:35-47 | the inner loop writes column `x` of the window and leaves the other columns alone |
| VwrapUp.WrapTile | vwrap_up.py:32-47 | the image built pixel by pixel is `model1` moved down by `d`, with `model2` entering at the top |
| VwrapUp.Wraparound | vwrap_up.py:28-50 | levels 1 and up each receive one wrapped tile, and level 0 is unchanged |
| VwrapUp.ShiftUp | vwrap_up.py:103-108 | corrected: every level from 1 receives the crop `i * step` pixels higher |
| VwrapUp.ShiftUpAsWritten | vwrap_up.py:105-108 | as written: only levels from `step` receive a crop, moved by `i` pixels |
| VwrapUp.NonTopAsWritten | vwrap_up.py:105-106 | as written, a tile below the top of its column adds nothing to the levels below `step`; to level `i` from `step` on it adds its crop `i` pixels higher, the window over the tile above and the tile moved by `i` |
| VwrapUp.FrameAsWritten | vwrap_up.py:99-110 | what one tile adds to level `i` as written: its crop on level 0, the wraparound frame for a column top, and for any other tile the crop of the loop at lines 105-106, or nothing where that loop skips the level |
| VwrapUp.FramesAsWritten | vwrap_up.py:97-110 | one contribution per tile, in scan order |
| VwrapUp.LevelAsWritten | vwrap_up.py:97-110 | level `i` as the scan as written fills it: the contributions of the tiles, one after the other |
| VwrapUp.MixedShifts | vwrap_up.py:103-110 | on an 8x16 picture with step 2, as written, level 1 misses the bottom tile and level 2 moves it 2 pixels while moving the top tile 4 |
| VwrapUp.LevelsAsWritten | vwrap_up.py:87-110 | the levels the scan as written fills: `8 / step` of them |
| VwrapUp.LevelAppend | vwrap_up.py:91-110 | filling a level from two lists of tiles in turn gives the two contributions in turn |
| VwrapUp.LevelSnoc | vwrap_up.py:97-110 | one more tile adds its frames after those of the tiles before it |
| VwrapUp.LowLevel | vwrap_up.py:103-110 | as written, a level from 1 below `step` holds only the wraparound frames of the column tops |
| VwrapUp.HighLevel | vwrap_up.py:99-110 | as written, level 0 and every level from `step` hold one frame per tile: a column top moved down by `i * step` pixels, any other tile by `i` |
| VwrapUp.StepOneAgrees | vwrap_up.py:103-110 | with step 1 the levels as written are the corrected levels |
| VwrapUp.TallStepTwo | vwrap_up.py:103-116 | one 8x16 picture with step 2: as written the levels hold 2, 1, 2 and 2 frames, 7 in all, where the corrected levels hold 8 |
| VwrapUp.VisitTile | vwrap_up.py:99-110 | one tile adds its crop to level 0 and to every other level what the script as written gives it (the wraparound frame for a column top); the bottom tile of the column becomes the wrap tile |
| VwrapUp.ScanColumn | vwrap_up.py:98-110 | a column adds its tiles' contributions as written, bottom up, to every level |
| VwrapUp.ScanPicture | vwrap_up.py:97-110 | a picture adds its columns' contributions as written, left to right |
| VwrapUp.Scan | vwrap_up.py:87-112 | the scan builds exactly `LevelsAsWritten` |
| VwrapUp.SheetTiles | vwrap_up.py:115 | the flattened levels as written; for step 1 they are the corrected list |
| VwrapUp.SheetTilesFixed | vwrap_up.py:115 | the flattened corrected levels, level 0 first |
| VwrapUp.Script | vwrap_up.py:53-132 | stops with the argument error when parsing fails (so on every command line without `--`) and crashes on a negative width; otherwise saves a sheet `width` wide and `SheetHeight` high holding the flattened levels as written |
| VwrapUp.EveryFrameShown | vwrap_up.py:115-129 | every pixel of every frame appears on the sheet in its slot |
| Vwrap.RowTiles | vwrap.py:46-47 | a tile row holds the crops at `x = 0, 8, 16, ...` |
| Vwrap.PictureTiles | vwrap.py:45-47 | a picture gives no tiles exactly when it has no tile rows or no width |
| Vwrap.Group | vwrap.py:47-71 | an original followed by its `8 / step - 1` copies: `8 / step` entries, the original first |
| Vwrap.GroupEntry | vwrap.py:52-71 | entry `i` from 1 is copy `i - 1`; for a picture 8 high it is the tile scrolled up by `i` |
| Vwrap.ExpandAppend | vwrap.py:39-71 | expanding two lists of originals in turn gives the concatenation |
| Vwrap.ExpandCount | vwrap.py:48-71 | `8 / step` tiles per original |
| Vwrap.ExpandLayout | vwrap.py:45-71 | entry `e` of original `t`'s group sits at position `t * (8 / step) + e` |
| Vwrap.CopyRows | vwrap.py:57-68 | for a picture 8 high, row `r` of entry `k` of the group holds row `(r + k) % 8` of the original |
| Vwrap.NewRow | vwrap.py:60 | Python's `%` gives a row below the modulus; it is the last one for `y == i`, and with modulus 8 it is the row `y` moves up to |
| Vwrap.Copied | vwrap.py:54-68 | copy `i` as the loop writes it for a picture at most 8 high: each row below the height holds the last source row sent to it, and the other rows stay black |
| Vwrap.Writer | vwrap.py:57-68 | for a picture at most 8 high, the last row `y` of the tile that line 60 sends to row `b` of the copy: it is sent there, and no later row is |
| Vwrap.LastBeforeStep | vwrap.py:57-68 | row `y` becomes the last writer of the row it is sent to, and of no other |
| Vwrap.CopiedRows | vwrap.py:54-68 | for a picture at most 8 high the rows of a copy from the height down stay black; for a picture 8 high the copy is the tile scrolled up by `1 + i` |
| Vwrap.CopyColumn | vwrap.py:57-68 | the column loop fails exactly when the picture is taller than 8; it never touches rows at or past the height, nor other columns; otherwise each row below the height holds the last source row sent to it |
| Vwrap.Copy | vwrap.py:52-71 | the copy fails exactly for pictures taller than 8; otherwise each row below the height holds its last writer and the rest stay black |
| Vwrap.CopyLossless | vwrap.py:60-68 | scrolling a copy back gives the original: no pixel is lost |
| Vwrap.VisitTile | vwrap.py:47-71 | one tile adds its whole group, or fails exactly when the picture is taller than 8 |
| Vwrap.ScanRow | vwrap.py:46-71 | a tile row adds the groups of its tiles, left to right, or fails exactly when the picture is taller than 8 and has a tile |
| Vwrap.RowStep | vwrap.py:46-71 | one more tile of a row adds its group after the groups of the tiles left of it |
| Vwrap.PictureStep | vwrap.py:45-46 | one more tile row adds its groups after those of the rows above |
| Vwrap.ScanPicture | vwrap.py:45-71 | a picture adds its rows' groups, top to bottom, or fails exactly when it is taller than 8 and has a tile |
| Vwrap.NextRow | vwrap.py:45-71 | one more tile row adds its groups after those of the rows above, or fails exactly when the picture is taller than 8 and has a tile |
| Vwrap.ScanStep | vwrap.py:39-72 | one more picture adds its originals and, when it is not too tall, its groups |
| Vwrap.Scan | vwrap.py:35-72 | fails exactly when some picture with tiles is taller than 8; otherwise `tiles` counts the originals and the list is exactly `SheetTiles` |
| Vwrap.SheetTiles | vwrap.py:35-72 | the list as written has `8 / step` entries per original tile |
| Vwrap.ScanFixed | vwrap.py:35-72 | corrected, with the copies taken modulo 8: `tiles` counts the originals and the list is exactly `SheetTilesFixed` |
| Vwrap.SheetTilesFixed | vwrap.py:35-72 | the corrected list has `8 / step` entries per original tile |
| Vwrap.EightHigh | vwrap.py:60 | when every picture with tiles is 8 pixels high, nothing fails and the list as written is the corrected list |
| Vwrap.HeightTooSmall | vwrap.py:74 | as written, any count from one more than a row's worth of tiles up to `width` tiles gets a single 8-pixel row, so the last tile lands at or below the bottom edge |
| Vwrap.SheetHeightAsWritten | vwrap.py:74 | as written: 8 times the least `q` with `q * width` at least the tile count, the width counted in pixels |
| Vwrap.Script | vwrap.py:8-90 | stops with the argument error when parsing fails (so on every command line without `--`); crashes on a picture taller than 8 or a negative width; otherwise saves a sheet `width` wide, of the height of line 74, in which every pixel is that of the tile whose slot covers it |
| Vwrap.ScriptFixed | vwrap.py:8-90 | the corrected script: stops with the argument error of the corrected parse, crashes only on a negative width, and otherwise saves a sheet of the height of vwrap_up.py holding the corrected list |
| Vwrap.EveryCopyShown | vwrap.py:80-87 | in the corrected script, every pixel of every copy appears on the sheet: entry `e` of original `t` is in slot `t * (8 / step) + e`, and its row `y` is row `(y + e) % 8` of the original |

## Left out

- WrapArgs.ParseInt: accepts only an optional sign followed by ASCII digits. Python's `int()` also allows surrounding whitespace, `_` between digits and non-ASCII decimal digits; the model treats such values as a crash.
- TileArgs.SearchDims: `\d` matches only ASCII digits here. In Python it also matches other Unicode decimal digits.
- Registry.TileNumber: it is the first digit run of the whole file name, as the code has it. With a tilemap prefix that contains a digit, the montage then names files that do not exist. The names ImageMagick writes (`%04d`) are not part of this model, so this is not stated as a property.
- Sheet.SheetHeight: computed with exact integer ceiling division. vwrap_up.py goes through a float, which differs only for tile counts far beyond what fits in an image.
- TiledMap.TileCountKept: assumes the listing holds one tile file per grid cell, which is what ImageMagick's crop produces when the image size is a multiple of the tile size. The crop itself is not modelled.
- ImageMagick is not modelled:
  - the checks that the executables exist (tilegen.py:23-36);
  - the crop into tile files (tilegen.py:70);
  - the `identify` checksum, which is the parameter `sum`;
  - running the montage command (tilegen.py:107), of which only the word list is modelled.
- Image files are not modelled:
  - `Image.open` is the parameter `open`, and failures to open a file or read its size are not modelled;
  - the size of tilegen.py's big image is a parameter;
  - image modes are not modelled: every picture is RGB.
- A crop that reaches outside the picture reads as black, which is what PIL does for RGB images.
- `Image.new` refusing a negative width is modelled only as the `Crash` outcome.
- File-system effects are not modelled: `os.mkdir`, the `removed.txt` file (its name has no digit, so the loop skips it), `os.remove`, and writing `map.json` and the result image.
- The listing from `sorted(os.listdir(...))` is taken as a given, already-sorted sequence of names.
- `os.sep` is taken to be `/`.
- The literal JSON fields of the map document (`compression_level`, `editorsettings`, `nextlayerid`, `orientation`, `tiledversion`, ...) and its serialisation are not modelled.
- Console output is not modelled: the usage text, the error messages, the final summary line, and the exit status of `sys.exit`. Each way of stopping is a `Stop` value.

## Findings

| source | as written | input that shows it | evidently intended | confidence | as-written member | corrected member |
|---|---|---|---|---|---|---|
| vwrap_up.py:105-106 | for a tile below the top of its column, `for i in range(step, TILE_HEIGHT // step)` with a crop `i` pixels higher | one 8x16 picture with step 2: level 1 gets no frame of the bottom tile, and level 2 moves the bottom tile 2 pixels while it moves the top tile 4 | `range(1, TILE_HEIGHT // step)` with a crop `i * step` pixels higher, as `wraparound` shifts by `i * step` (line 37) | not executed; high | VwrapUp.ShiftUpAsWritten, VwrapUp.MixedShifts, VwrapUp.TallStepTwo | VwrapUp.ShiftUp, VwrapUp.FrameShift |
| vwrap.py:60 | `new_y = (y - 1 - i) % height`, with `height` the picture's height | any picture taller than 8 pixels, such as 8x16: row `y == i` goes to row 15 of the 8x8 copy and `putpixel` raises `IndexError` | `% 8`, the height of a tile | not executed; high | Vwrap.Copy, Vwrap.Scan | Vwrap.CopyRows, Vwrap.ScanFixed |
| vwrap.py:74 | `math.ceil(len(new_images) / int(new_width)) * 8` divides the tile count by the width in pixels | one 8x8 picture, width 8, step 4: two tiles, a sheet 8 high, and the second tile pasted below it | `math.ceil(len(new_images) * 8 / int(new_width)) * 8`, as vwrap_up.py:116 | not executed; high | Vwrap.SheetHeightAsWritten, Vwrap.HeightTooSmall | Sheet.SheetHeight, Vwrap.EveryCopyShown |
| vwrap_up.py:66-67 | without `--`, `output, new_width, step = sys.argv[2:4]` (vwrap.py:18 likewise): two values for three names | `vwrap_up.py in.png out.png 16 2`: vwrap_up.py reports a missing parameter, and vwrap.py raises `ValueError` | `sys.argv[2:5]`, so that the form without `--` works as the comment at line 56 says | not executed; high | WrapArgs.SplitAsWritten, WrapArgs.SeparatorlessAsWritten | WrapArgs.Split, WrapArgs.ParseSeparatorless |
