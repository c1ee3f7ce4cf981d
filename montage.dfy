/**
 * The ImageMagick command of tilegen.py that assembles the tileset image: the kept tiles,
 * in dictionary order, are grouped into rows of `columns` tiles (`+append` joins a group
 * side by side), and the rows are stacked (`-append`) on a black background.
 */
module Montage {
  import opened Text

  /** The rows of the tileset: consecutive groups of `cols` entries, the last one possibly shorter; `cols == 0` never closes a row. */
  function Chunks<T>(p: seq<T>, cols: nat): (gs: seq<seq<T>>)
    ensures forall g :: g in gs ==> g != []
    decreases |p|
  {
    if p == [] then []
    else if cols >= 1 && |p| > cols then [p[..cols]] + Chunks(p[cols..], cols)
    else [p]
  }

  /** The rows concatenated. */
  function Flatten<T>(gs: seq<seq<T>>): seq<T> {
    if gs == [] then [] else Flatten(gs[..|gs| - 1]) + gs[|gs| - 1]
  }

  /** Each row as command-line words: `(`, its files, `+append`, `)`. */
  function Bracket(gs: seq<seq<string>>): seq<string> {
    if gs == [] then []
    else Bracket(gs[..|gs| - 1]) + ["("] + gs[|gs| - 1] + ["+append", ")"]
  }

  /** The file of the tile registered with tile number `value`. */
  function TilePath(tileDir: string, prefix: string, value: string): string {
    Join(tileDir, prefix + value + ".png")
  }

  /**
   * A prefix that starts with the separator (the output argument `out//t`) makes the file
   * name absolute, and `os.path.join` drops the tile directory.
   */
  lemma TilePathRootedPrefix(tileDir: string, prefix: string, value: string)
    requires prefix != [] && prefix[0] == Sep
    ensures TilePath(tileDir, prefix, value) == prefix + value + ".png"
  {
    JoinAbsolute(tileDir, prefix + value + ".png");
  }

  function TilePaths(tileDir: string, prefix: string, values: seq<string>): (ps: seq<string>)
    ensures |ps| == |values|
    ensures forall m :: 0 <= m < |values| ==> ps[m] == TilePath(tileDir, prefix, values[m])
  {
    if values == [] then []
    else TilePaths(tileDir, prefix, values[..|values| - 1]) + [TilePath(tileDir, prefix, values[|values| - 1])]
  }

  /** The tileset image the command writes. */
  function TilesetPath(tileDir: string, tilesetArg: string): string {
    Join(tileDir, "tileset" + tilesetArg + ".png")
  }

  /** Rows of `m` entries each flatten to `|gs| * m` entries. */
  lemma {:induction false} FlattenUniform<T>(gs: seq<seq<T>>, m: nat)
    requires forall k :: 0 <= k < |gs| ==> |gs[k]| == m
    ensures |Flatten(gs)| == |gs| * m
    decreases |gs|
  {
    if gs != [] {
      FlattenUniform(gs[..|gs| - 1], m);
      assert |gs| * m == (|gs| - 1) * m + m;
    }
  }

  /** Concatenating the rows gives back the tiles in order. */
  lemma {:induction false} ChunksFlatten<T>(p: seq<T>, cols: nat)
    ensures Flatten(Chunks(p, cols)) == p
    decreases |p|
  {
    if p != [] && cols >= 1 && |p| > cols {
      var rest := Chunks(p[cols..], cols);
      ChunksFlatten(p[cols..], cols);
      FlattenCons(p[..cols], rest);
      assert p[..cols] + p[cols..] == p;
    } else if p != [] {
      assert Flatten([p]) == Flatten([]) + p;
    }
  }

  lemma {:induction false} FlattenCons<T>(g: seq<T>, gs: seq<seq<T>>)
    ensures Flatten([g] + gs) == g + Flatten(gs)
    decreases |gs|
  {
    if gs == [] {
      assert Flatten([g]) == Flatten([]) + g;
    } else {
      var n := |gs| - 1;
      FlattenCons(g, gs[..n]);
      var a := [g] + gs;
      assert a[..n + 1] == [g] + gs[..n] && a[n + 1] == gs[n];
      assert Flatten(a) == Flatten([g] + gs[..n]) + gs[n];
      assert Flatten(gs) == Flatten(gs[..n]) + gs[n];
    }
  }

  /**
   * Every row but the last holds exactly `cols` tiles and the last between 1 and `cols`:
   * the rows are as few as `cols` columns allow.
   */
  lemma {:induction false} ChunksShape<T>(p: seq<T>, cols: nat)
    requires cols >= 1
    ensures var gs := Chunks(p, cols);
            && (forall i :: 0 <= i < |gs| - 1 ==> |gs[i]| == cols)
            && (gs != [] ==> 1 <= |gs[|gs| - 1]| <= cols)
            && (|gs| - 1) * cols < |p| <= |gs| * cols
    decreases |p|
  {
    var gs := Chunks(p, cols);
    if p != [] && |p| > cols {
      ChunksShape(p[cols..], cols);
      var rest := Chunks(p[cols..], cols);
      assert gs == [p[..cols]] + rest;
      assert forall i :: 1 <= i < |gs| ==> gs[i] == rest[i - 1];
      assert |gs| * cols == cols + |rest| * cols;
      assert (|gs| - 1) * cols == |rest| * cols;
      assert (|rest| - 1) * cols == |rest| * cols - cols;
    } else if p != [] {
      assert (|gs| - 1) * cols == 0;
    }
  }

  /** The tile at row `r`, column `c` of the tileset is entry `r * cols + c`: where a tiled map looks for id `r * cols + c + 1`. */
  lemma {:induction false} ChunksIndex<T>(p: seq<T>, cols: nat, r: nat, c: nat)
    requires c < cols && r * cols + c < |p|
    ensures var gs := Chunks(p, cols);
            r < |gs| && c < |gs[r]| && gs[r][c] == p[r * cols + c]
    decreases r
  {
    if r > 0 {
      assert r * cols == cols + (r - 1) * cols;
      ChunksIndex(p[cols..], cols, r - 1, c);
    }
  }

  /** With zero columns every tile lands in a single row. */
  lemma ChunksNoColumns<T>(p: seq<T>)
    requires p != []
    ensures Chunks(p, 0) == [p]
  {
  }

  /**
   * Conversely, rows of `cols` entries followed by one last row of 1 to `cols` entries are
   * exactly the rows `Chunks` cuts from their concatenation.
   */
  lemma {:induction false} ChunksRows<T>(rows: seq<seq<T>>, cols: nat)
    requires cols >= 1
    requires forall k :: 0 <= k < |rows| - 1 ==> |rows[k]| == cols
    requires rows != [] ==> 1 <= |rows[|rows| - 1]| <= cols
    ensures Chunks(Flatten(rows), cols) == rows
    decreases |rows|
  {
    if rows != [] {
      var tail := rows[1..];
      assert [rows[0]] + tail == rows;
      FlattenCons(rows[0], tail);
      ChunksRows(tail, cols);
      var p := Flatten(rows);
      if tail == [] {
        assert Flatten(tail) == [] && p == rows[0];
      } else {
        assert |Flatten(tail)| >= |tail[|tail| - 1]| >= 1;
        assert p[..cols] == rows[0] && p[cols..] == Flatten(tail);
      }
    }
  }

  /** One more row: its words follow the earlier rows', its files follow theirs. */
  lemma AppendRow(done: seq<seq<string>>, g: seq<string>)
    ensures Bracket(done + [g]) == Bracket(done) + ["("] + g + ["+append", ")"]
    ensures Flatten(done + [g]) == Flatten(done) + g
  {
    assert (done + [g])[..|done|] == done;
  }

  /**
   * The loop of tilegen.py over the dictionary's values: opens a row before its first tile,
   * closes it after `cols` tiles, closes a last partial row, then stacks the rows into the
   * tileset image.
   */
  method Command(tileDir: string, prefix: string, values: seq<string>, cols: nat, tilesetArg: string)
    returns (cmd: seq<string>)
    ensures cmd == ["convert"] + Bracket(Chunks(TilePaths(tileDir, prefix, values), cols))
                   + ["-background", "black", "-append", TilesetPath(tileDir, tilesetArg)]
  {
    ghost var paths := TilePaths(tileDir, prefix, values);
    ghost var done: seq<seq<string>> := [];
    ghost var open: seq<string> := [];
    var line := 0;
    cmd := ["convert"];
    for i := 0 to |values|
      invariant |open| == line && (cols >= 1 ==> line < cols)
      invariant cols == 0 ==> done == []
      invariant Flatten(done) + open == paths[..i]
      invariant forall k :: 0 <= k < |done| ==> |done[k]| == cols
      invariant cmd == ["convert"] + Bracket(done) + OpenRow(open)
    {
      ListStep(Flatten(done), open, paths, i);
      cmd, line, done, open := AddTile(cmd, line, cols, TilePath(tileDir, prefix, values[i]), done, open);
    }
    assert paths[..|values|] == paths;
    LastRow(done, open, paths, cols);
    if line > 0 {
      RowWords(done, open);
      done, open := done + [open], [];
      cmd := cmd + ["+append", ")"];
    }
    assert OpenRow(open) == [] && cmd == ["convert"] + Bracket(done) + [];
    assert cmd == ["convert"] + Bracket(Chunks(paths, cols));
    cmd := cmd + ["-background", "black", "-append", TilesetPath(tileDir, tilesetArg)];
  }

  /**
   * One pass of the loop: the file's path is written, after `(` when it opens a row, and
   * `+append )` follows when it fills the row.
   */
  method AddTile(cmd: seq<string>, line: nat, cols: nat, path: string,
                 ghost done: seq<seq<string>>, ghost open: seq<string>)
    returns (cmd': seq<string>, line': nat, ghost done': seq<seq<string>>, ghost open': seq<string>)
    requires |open| == line && (cols >= 1 ==> line < cols) && (cols == 0 ==> done == [])
    requires forall k :: 0 <= k < |done| ==> |done[k]| == cols
    requires cmd == ["convert"] + Bracket(done) + OpenRow(open)
    ensures |open'| == line' && (cols >= 1 ==> line' < cols) && (cols == 0 ==> done' == [])
    ensures forall k :: 0 <= k < |done'| ==> |done'[k]| == cols
    ensures Flatten(done') + open' == Flatten(done) + (open + [path])
    ensures cmd' == ["convert"] + Bracket(done') + OpenRow(open')
  {
    cmd' := cmd;
    if line == 0 {
      cmd' := cmd' + ["("];
    }
    cmd' := cmd' + [path];
    TileWords(["convert"] + Bracket(done), open, path);
    line', done', open' := line + 1, done, open + [path];
    if line' == cols {
      RowWords(done', open');
      done', open' := done' + [open'], [];
      cmd' := cmd' + ["+append", ")"];
      line' := 0;
    }
  }

  /** The rows the loop closed, and the row left open if any, are the rows `Chunks` cuts. */
  lemma LastRow(done: seq<seq<string>>, open: seq<string>, p: seq<string>, cols: nat)
    requires Flatten(done) + open == p
    requires cols >= 1 ==> |open| < cols
    requires cols == 0 ==> done == []
    requires forall k :: 0 <= k < |done| ==> |done[k]| == cols
    ensures Chunks(p, cols) == if open == [] then done else done + [open]
  {
    var rows := if open == [] then done else done + [open];
    if open == [] {
      assert Flatten(rows) + open == Flatten(rows);
    } else {
      RowFiles(done, open, p);
    }
    if cols >= 1 {
      ChunksRows(rows, cols);
    } else {
      assert Flatten(done) == [] && open == p;
    }
  }

  /** The words of the row still open: `(` and its files so far, nothing when no row is open. */
  function OpenRow(open: seq<string>): (ws: seq<string>)
    ensures |ws| == if open == [] then 0 else |open| + 1
  {
    if open == [] then [] else ["("] + open
  }

  /** A file joins the open row, opening it first when it is the row's first file. */
  lemma TileWords(closed: seq<string>, open: seq<string>, t: string)
    ensures (if open == [] then closed + OpenRow(open) + ["("] else closed + OpenRow(open)) + [t]
            == closed + OpenRow(open + [t])
  {
    if open == [] {
      assert open + [t] == [t];
    }
  }

  /** Closing the open row turns it into one more bracketed row. */
  lemma RowWords(done: seq<seq<string>>, open: seq<string>)
    requires open != []
    ensures ["convert"] + Bracket(done) + OpenRow(open) + ["+append", ")"]
            == ["convert"] + Bracket(done + [open]) + OpenRow([])
    ensures Flatten(done + [open]) == Flatten(done) + open
  {
    AppendRow(done, open);
  }

  /** One more file listed after the closed rows `f` and the open row. */
  lemma ListStep(f: seq<string>, open: seq<string>, p: seq<string>, i: nat)
    requires i < |p| && f + open == p[..i]
    ensures f + (open + [p[i]]) == p[..i + 1]
  {
    assert p[..i + 1] == p[..i] + [p[i]];
  }

  /** Closing the open row leaves the same files listed. */
  lemma RowFiles(done: seq<seq<string>>, open: seq<string>, q: seq<string>)
    requires Flatten(done) + open == q
    ensures Flatten(done + [open]) + [] == q && Flatten(done + [open]) == q
  {
    AppendRow(done, open);
  }
}
