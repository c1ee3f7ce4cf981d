/**
 * Command-line handling of tilegen.py: the `WxH` dimension arguments, the split of the
 * output argument into a directory and a file-name prefix, and the order in which the
 * script gives up on bad arguments.
 */
module TileArgs {
  import opened Wrappers
  import opened Text

  datatype Dims = Dims(w: nat, h: nat)

  /** `(\d+)x(\d+)` matches at position `i`: the greedy digit run from `i` is followed by `x` and a digit. */
  predicate MatchAt(s: string, i: nat) {
    i < |s| && IsDigit(s[i]) &&
    var j := RunEnd(s, i);
    j + 1 < |s| && s[j] == 'x' && IsDigit(s[j + 1])
  }

  /** The two groups of the match at `i`, read as integers. */
  function GroupsAt(s: string, i: nat): Dims
    requires MatchAt(s, i)
  {
    var j := RunEnd(s, i);
    Dims(Value(s[i..j]), Value(s[j + 1..RunEnd(s, j + 1)]))
  }

  /** Leftmost match position at or after `i`: how `re.search` scans the subject. */
  function FirstMatchFrom(s: string, i: nat): (r: Option<nat>)
    requires i <= |s|
    ensures r.None? <==> forall k :: i <= k < |s| ==> !MatchAt(s, k)
    ensures r.Some? ==> i <= r.value < |s| && MatchAt(s, r.value)
                        && forall k :: i <= k < r.value ==> !MatchAt(s, k)
    decreases |s| - i
  {
    if i == |s| then None
    else if MatchAt(s, i) then Some(i)
    else FirstMatchFrom(s, i + 1)
  }

  /** `re.search('(\d+)x(\d+)', s)` with both groups converted by `int()`. */
  function SearchDims(s: string): (r: Option<Dims>)
    ensures r.None? <==> forall k :: 0 <= k < |s| ==> !MatchAt(s, k)
    ensures r.Some? ==> exists i :: 0 <= i < |s| && MatchAt(s, i) && r.value == GroupsAt(s, i)
                                 && forall k :: 0 <= k < i ==> !MatchAt(s, k)
  {
    match FirstMatchFrom(s, 0)
    case None => None
    case Some(i) => Some(GroupsAt(s, i))
  }

  /** A digit run placed after `pre` and before a non-digit ends where it was placed. */
  lemma RunEndAt(pre: string, run: string, post: string)
    requires AllDigits(run) && (post == [] || !IsDigit(post[0]))
    ensures RunEnd(pre + run + post, |pre|) == |pre| + |run|
  {
    var s := pre + run + post;
    var j := |pre| + |run|;
    assert s[|pre|..j] == run;
    assert j == |s| || s[j] == post[0];
    RunEndUnique(s, |pre|, j);
  }

  /** In `WxH` written out, the digit runs end at the `x` and at the end of the text. */
  lemma DimsRuns(sw: string, sh: string)
    requires sw != [] && AllDigits(sw) && sh != [] && AllDigits(sh)
    ensures var s := sw + "x" + sh;
            RunEnd(s, 0) == |sw| && RunEnd(s, |sw| + 1) == |s|
  {
    var s := sw + "x" + sh;
    RunEndAt([], sw, "x" + sh);
    assert [] + sw + ("x" + sh) == s;
    RunEndAt(sw + "x", sh, []);
    assert sw + "x" + sh + [] == s;
  }

  /** Rendering `w` and `h` as `WxH` and searching it back gives the same numbers. */
  lemma SearchDimsShow(w: nat, h: nat)
    ensures SearchDims(Show(w) + "x" + Show(h)) == Some(Dims(w, h))
  {
    var sw, sh := Show(w), Show(h);
    var s := sw + "x" + sh;
    DimsRuns(sw, sh);
    assert s[|sw| + 1] == sh[0];
    assert MatchAt(s, 0);
    assert FirstMatchFrom(s, 0) == Some(0);
    assert s[0..|sw|] == sw && s[|sw| + 1..|s|] == sh;
    ValueShow(w);
    ValueShow(h);
  }

  datatype DimsError = NoDims | ZeroDims

  /** The dimension check of the script: a `WxH` match is required and a zero in either part is refused. */
  function ParseDims(s: string): (r: Result<Dims, DimsError>)
    ensures r == Err(NoDims) <==> SearchDims(s).None?
    ensures r == Err(ZeroDims) <==> SearchDims(s).Some? && (SearchDims(s).value.w == 0 || SearchDims(s).value.h == 0)
    ensures r.Ok? ==> SearchDims(s) == Some(r.value) && r.value.w >= 1 && r.value.h >= 1
  {
    match SearchDims(s)
    case None => Err(NoDims)
    case Some(d) => if d.w <= 0 || d.h <= 0 then Err(ZeroDims) else Ok(d)
  }

  /** The output argument `dir/prefix`, split at its first separator. */
  function SplitOutput(arg: string): (r: Option<(string, string)>)
    ensures r.None? <==> Sep !in arg
    ensures r.Some? ==> r.value.0 + [Sep] + r.value.1 == arg && Sep !in r.value.0
  {
    if Sep !in arg then None
    else
      var k := IndexOf(arg, Sep);
      assert arg == arg[..k] + [Sep] + arg[k + 1..];
      Some((arg[..k], arg[k + 1..]))
  }

  /** A directory without a separator, a separator and a prefix split back into the two. */
  lemma SplitOutputJoin(dir: string, prefix: string)
    requires Sep !in dir
    ensures SplitOutput(dir + [Sep] + prefix) == Some((dir, prefix))
  {
    var arg := dir + [Sep] + prefix;
    assert arg[|dir|] == Sep;
    var k := IndexOf(arg, Sep);
    assert arg[..|dir|] == dir;
    assert arg[k + 1..] == prefix;
  }

  /** Everything the later stages need from the command line. */
  datatype Config = Config(image: string, tile: Dims, tileDir: string, prefix: string,
                           tilesetArg: string, tileset: Dims)

  datatype ConfigError =
    | Usage
    | ImageMissing
    | BadTileDims
    | ZeroTileDims
    | NoOutputDir
    | OutputDirExists
    | BadTilesetDims
    | ZeroTilesetDims

  /**
   * The argument checks of `main`, in the script's order. `present` answers
   * `os.path.exists`.
   */
  function Configure(argv: seq<string>, present: string -> bool): (r: Result<Config, ConfigError>)
    ensures r == Err(Usage) <==> |argv| != 5
    ensures r == Err(ImageMissing) <==> |argv| == 5 && !present(argv[1])
    ensures r == Err(BadTileDims) <==> |argv| == 5 && present(argv[1]) && ParseDims(argv[2]) == Err(NoDims)
    ensures r == Err(ZeroTileDims) <==> |argv| == 5 && present(argv[1]) && ParseDims(argv[2]) == Err(ZeroDims)
    ensures r == Err(NoOutputDir) <==>
              |argv| == 5 && present(argv[1]) && ParseDims(argv[2]).Ok? && Sep !in argv[3]
    ensures r == Err(OutputDirExists) <==>
              |argv| == 5 && present(argv[1]) && ParseDims(argv[2]).Ok? && SplitOutput(argv[3]).Some?
              && present(SplitOutput(argv[3]).value.0)
    ensures r == Err(BadTilesetDims) <==>
              |argv| == 5 && present(argv[1]) && ParseDims(argv[2]).Ok? && SplitOutput(argv[3]).Some?
              && !present(SplitOutput(argv[3]).value.0) && ParseDims(argv[4]) == Err(NoDims)
    ensures r == Err(ZeroTilesetDims) <==>
              |argv| == 5 && present(argv[1]) && ParseDims(argv[2]).Ok? && SplitOutput(argv[3]).Some?
              && !present(SplitOutput(argv[3]).value.0) && ParseDims(argv[4]) == Err(ZeroDims)
    ensures r.Ok? <==>
              |argv| == 5 && present(argv[1]) && ParseDims(argv[2]).Ok? && SplitOutput(argv[3]).Some?
              && !present(SplitOutput(argv[3]).value.0) && ParseDims(argv[4]).Ok?
    ensures r.Ok? ==>
              && r.value.image == argv[1] && r.value.tilesetArg == argv[4]
              && ParseDims(argv[2]) == Ok(r.value.tile) && ParseDims(argv[4]) == Ok(r.value.tileset)
              && SplitOutput(argv[3]) == Some((r.value.tileDir, r.value.prefix))
              && r.value.tileDir + [Sep] + r.value.prefix == argv[3] && Sep !in r.value.tileDir
              && !present(r.value.tileDir)
  {
    if |argv| != 5 then Err(Usage)
    else if !present(argv[1]) then Err(ImageMissing)
    else match ParseDims(argv[2])
      case Err(NoDims) => Err(BadTileDims)
      case Err(ZeroDims) => Err(ZeroTileDims)
      case Ok(tile) =>
        match SplitOutput(argv[3])
        case None => Err(NoOutputDir)
        case Some((dir, prefix)) =>
          if present(dir) then Err(OutputDirExists)
          else match ParseDims(argv[4])
            case Err(NoDims) => Err(BadTilesetDims)
            case Err(ZeroDims) => Err(ZeroTilesetDims)
            case Ok(tileset) => Ok(Config(argv[1], tile, dir, prefix, argv[4], tileset))
  }

  /**
   * A command line written from its parts passes every check: an existing image, `WxH`
   * dimensions of at least 1, and `dir/prefix` with a new directory give back those parts.
   */
  lemma ConfigureAccepts(script: string, image: string, tile: Dims, dir: string, prefix: string,
                         tileset: Dims, present: string -> bool)
    requires present(image) && !present(dir) && Sep !in dir
    requires tile.w >= 1 && tile.h >= 1 && tileset.w >= 1 && tileset.h >= 1
    ensures var tilesetArg := Show(tileset.w) + "x" + Show(tileset.h);
            var argv := [script, image, Show(tile.w) + "x" + Show(tile.h), dir + [Sep] + prefix, tilesetArg];
            Configure(argv, present) == Ok(Config(image, tile, dir, prefix, tilesetArg, tileset))
  {
    SearchDimsShow(tile.w, tile.h);
    SearchDimsShow(tileset.w, tileset.h);
    SplitOutputJoin(dir, prefix);
  }
}
