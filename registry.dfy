/**
 * The deduplication loop of tilegen.py. The crops written by ImageMagick are listed in
 * sorted order; every file whose name holds a digit is a tile. Its checksum is looked up
 * in an insertion-ordered dictionary: the first file with a given checksum is kept and
 * registered under its tile number, later ones are logged and deleted. Every tile gets
 * the 1-based insertion position of its checksum as its map id.
 *
 * The checksum of a file (ImageMagick's `identify -format %#`) is the parameter `sum`,
 * applied to the file's path.
 */
module Registry {
  import opened Text

  /** The names in the listing that contain a digit, in listing order: the files the loop processes. */
  function TileFiles(names: seq<string>): (r: seq<string>)
    ensures |r| <= |names|
    ensures forall k :: 0 <= k < |r| ==> HasDigit(r[k])
  {
    if names == [] then []
    else
      var rest := TileFiles(names[..|names| - 1]);
      var n := names[|names| - 1];
      if HasDigit(n) then rest + [n] else rest
  }

  /** A name is processed exactly when it is listed and holds a digit. */
  lemma {:induction false} TileFilesMembers(names: seq<string>)
    ensures forall n :: n in TileFiles(names) <==> n in names && HasDigit(n)
    decreases |names|
  {
    if names != [] {
      var init := names[..|names| - 1];
      TileFilesMembers(init);
      assert names == init + [names[|names| - 1]];
    }
  }

  /**
   * The processed names keep the listing order: filtering two listings one after the
   * other is filtering their concatenation.
   */
  lemma {:induction false} TileFilesAppend(a: seq<string>, b: seq<string>)
    ensures TileFiles(a + b) == TileFiles(a) + TileFiles(b)
    decreases |b|
  {
    if b == [] {
      assert a + b == a;
    } else {
      var n := |b| - 1;
      TileFilesAppend(a, b[..n]);
      assert (a + b)[..|a| + n] == a + b[..n];
    }
  }

  /** The tile number of a file: the first run of digits in its name. */
  function TileNumber(name: string): (r: string)
    requires HasDigit(name)
    ensures r != [] && AllDigits(r)
  {
    FirstDigitRun(name).value
  }

  /** The checksum of every processed file, in processing order. */
  function Checksums<C>(dir: string, files: seq<string>, sum: string -> C): (cs: seq<C>)
    ensures |cs| == |files|
  {
    if files == [] then []
    else Checksums(dir, files[..|files| - 1], sum) + [sum(Join(dir, files[|files| - 1]))]
  }

  /** Entry `k` of the checksums is the checksum of the path of file `k`. */
  lemma {:induction false} ChecksumsAt<C>(dir: string, files: seq<string>, sum: string -> C)
    ensures forall k :: 0 <= k < |files| ==> Checksums(dir, files, sum)[k] == sum(Join(dir, files[k]))
    decreases |files|
  {
    if files != [] {
      ChecksumsAt(dir, files[..|files| - 1], sum);
    }
  }

  /** The dictionary's keys after registering `cs` in order: each checksum once, first occurrence first. */
  function Distinct<C(==)>(cs: seq<C>): (d: seq<C>)
    ensures |d| <= |cs|
  {
    if cs == [] then []
    else
      var d := Distinct(cs[..|cs| - 1]);
      var c := cs[|cs| - 1];
      if c in d then d else d + [c]
  }

  /** The scan positions of the files that were kept: those whose checksum was new. */
  function FirstPositions<C(==)>(cs: seq<C>): (ps: seq<nat>)
    ensures |ps| == |Distinct(cs)|
    ensures forall m :: 0 <= m < |ps| ==> ps[m] < |cs| && cs[ps[m]] == Distinct(cs)[m]
  {
    if cs == [] then []
    else
      var n := |cs| - 1;
      var ps := FirstPositions(cs[..n]);
      if cs[n] in Distinct(cs[..n]) then ps else ps + [n]
  }

  /** The paths of the files whose checksum was already registered: the lines of `removed.txt`. */
  function Duplicates<C(==)>(dir: string, files: seq<string>, cs: seq<C>): (r: seq<string>)
    requires |files| == |cs|
  {
    if cs == [] then []
    else
      var n := |cs| - 1;
      Duplicates(dir, files[..n], cs[..n])
        + (if cs[n] in Distinct(cs[..n]) then [Join(dir, files[n])] else [])
  }

  /** A checksum is registered exactly when some tile has it. */
  lemma {:induction false} DistinctMember<C>(cs: seq<C>, c: C)
    ensures c in Distinct(cs) <==> c in cs
  {
    if cs != [] {
      var p := cs[..|cs| - 1];
      DistinctMember(p, c);
      assert cs == p + [cs[|cs| - 1]];
    }
  }

  /** Every checksum is registered at most once. */
  lemma {:induction false} DistinctNoDup<C>(cs: seq<C>)
    ensures forall i, j :: 0 <= i < j < |Distinct(cs)| ==> Distinct(cs)[i] != Distinct(cs)[j]
  {
    if cs != [] {
      DistinctNoDup(cs[..|cs| - 1]);
    }
  }

  /** The kept files appear in scan order, and each is the first file with its checksum. */
  lemma {:induction false} FirstPositionsFirst<C>(cs: seq<C>)
    ensures forall m :: 0 <= m < |FirstPositions(cs)| ==>
              cs[FirstPositions(cs)[m]] !in cs[..FirstPositions(cs)[m]]
    ensures forall i, j :: 0 <= i < j < |FirstPositions(cs)| ==> FirstPositions(cs)[i] < FirstPositions(cs)[j]
  {
    if cs != [] {
      var n := |cs| - 1;
      var p := cs[..n];
      FirstPositionsFirst(p);
      var ps := FirstPositions(p);
      forall m | 0 <= m < |ps|
        ensures cs[ps[m]] !in cs[..ps[m]]
      {
        assert p[..ps[m]] == cs[..ps[m]];
      }
      DistinctMember(p, cs[n]);
    }
  }

  /** `IndexOf` is unaffected by what follows the first occurrence. */
  lemma {:induction false} IndexOfAppend<T>(s: seq<T>, t: seq<T>, x: T)
    requires x in s
    ensures IndexOf(s + t, x) == IndexOf(s, x)
  {
    if s[0] != x {
      assert (s + t)[1..] == s[1..] + t;
      IndexOfAppend(s[1..], t, x);
    }
  }

  /** The deleted files and the registered checksums together account for every processed file. */
  lemma {:induction false} DuplicatesCount<C>(dir: string, files: seq<string>, cs: seq<C>)
    requires |files| == |cs|
    ensures |Duplicates(dir, files, cs)| + |Distinct(cs)| == |cs|
  {
    if cs != [] {
      var n := |cs| - 1;
      DuplicatesCount(dir, files[..n], cs[..n]);
    }
  }


  /** How the specification functions grow by one processed file. */
  lemma Snoc<C>(dir: string, files: seq<string>, cs: seq<C>, name: string, c: C)
    requires |files| == |cs|
    ensures var d := Distinct(cs);
            && Distinct(cs + [c]) == (if c in d then d else d + [c])
            && FirstPositions(cs + [c]) == FirstPositions(cs) + (if c in d then [] else [|cs|])
            && Duplicates(dir, files + [name], cs + [c])
               == Duplicates(dir, files, cs) + (if c in d then [Join(dir, name)] else [])
  {
    assert (cs + [c])[..|cs|] == cs && (files + [name])[..|cs|] == files;
  }

  /**
   * The state of the loop: the insertion-ordered dictionary as its `keys` (checksums) and
   * `values` (tile numbers) in insertion order, the `ids` list and the `removed` paths.
   */
  datatype Registry<C> = Registry(keys: seq<C>, values: seq<string>, ids: seq<nat>, removed: seq<string>)

  /**
   * One pass of the loop body for the tile at `path` with tile number `num` and checksum
   * `c`: a known checksum puts the path on the removal list, a new one is registered; then
   * the tile's id is one plus the checksum's position among the keys.
   */
  function Register<C(==)>(r: Registry<C>, path: string, num: string, c: C): (r': Registry<C>)
    ensures c in r.keys ==> r'.keys == r.keys && r'.values == r.values && r'.removed == r.removed + [path]
    ensures c !in r.keys ==> r'.keys == r.keys + [c] && r'.values == r.values + [num] && r'.removed == r.removed
    ensures c in r'.keys && r'.ids == r.ids + [IndexOf(r'.keys, c) + 1]
    ensures IndexOf(r'.keys, c) + 1 == if c in r.keys then IndexOf(r.keys, c) + 1 else |r.keys| + 1
  {
    var s := if c in r.keys then r.(removed := r.removed + [path])
             else r.(keys := r.keys + [c], values := r.values + [num]);
    s.(ids := s.ids + [IndexOf(s.keys, c) + 1])
  }

  /** The loop body for one name of the listing: names without a digit are skipped. */
  function Visit1<C(==)>(r: Registry<C>, dir: string, name: string, sum: string -> C): Registry<C> {
    match FirstDigitRun(name)
    case None => r
    case Some(num) => Register(r, Join(dir, name), num, sum(Join(dir, name)))
  }

  /** The loop's state after visiting the first `n` names of the listing. */
  function Run<C(==)>(dir: string, names: seq<string>, n: nat, sum: string -> C): Registry<C>
    requires n <= |names|
  {
    if n == 0 then Registry([], [], [], [])
    else Visit1(Run(dir, names, n - 1, sum), dir, names[n - 1], sum)
  }

  /**
   * Every processed tile either adds a key with its tile number or records a removed
   * duplicate, and gets one id either way.
   */
  lemma {:induction false} RunSizes<C>(dir: string, names: seq<string>, n: nat, sum: string -> C)
    requires n <= |names|
    ensures var r := Run(dir, names, n, sum);
            |r.keys| == |r.values| && |r.ids| == |r.keys| + |r.removed|
  {
    if n > 0 {
      RunSizes(dir, names, n - 1, sum);
    }
  }

  /**
   * The loop of tilegen.py over the sorted listing of the tile directory. Returns the
   * dictionary as `keys` and `values`, the `tiles` id list, the `deleted` counter and the
   * paths written to `removed.txt` (and deleted).
   */
  method Dedup<C(==)>(dir: string, names: seq<string>, sum: string -> C)
    returns (keys: seq<C>, values: seq<string>, tiles: seq<nat>, deleted: nat, removed: seq<string>)
    ensures Registry(keys, values, tiles, removed) == Run(dir, names, |names|, sum)
    ensures deleted == |removed|
  {
    keys, values, tiles, deleted, removed := [], [], [], 0, [];
    for n := 0 to |names|
      invariant Registry(keys, values, tiles, removed) == Run(dir, names, n, sum)
      invariant deleted == |removed|
    {
      ghost var r := Run(dir, names, n, sum);
      var name := names[n];
      match FirstDigitRun(name)
      case None =>
      case Some(tileNum) =>
        var path := Join(dir, name);
        var chksum := sum(path);
        ghost var r' := Register(r, path, tileNum, chksum);
        if chksum in keys {
          deleted := deleted + 1;
          removed := removed + [path];
        } else {
          keys := keys + [chksum];
          values := values + [tileNum];
        }
        tiles := tiles + [IndexOf(keys, chksum) + 1];
        assert keys == r'.keys && values == r'.values && tiles == r'.ids && removed == r'.removed;
    }
  }

  /** Name `n` of the listing has no digit: the loop skips it. */
  lemma SkipStep<C>(dir: string, names: seq<string>, n: nat, sum: string -> C)
    requires n < |names| && !HasDigit(names[n])
    ensures TileFiles(names[..n + 1]) == TileFiles(names[..n])
    ensures Run(dir, names, n + 1, sum) == Run(dir, names, n, sum)
  {
    assert names[..n + 1][..n] == names[..n];
  }

  /** Name `n` of the listing has a digit: the loop processes it as the next tile. */
  lemma TileStep<C>(dir: string, names: seq<string>, n: nat, sum: string -> C)
    requires n < |names| && HasDigit(names[n])
    ensures var files, path := TileFiles(names[..n]), Join(dir, names[n]);
            && TileFiles(names[..n + 1]) == files + [names[n]]
            && Checksums(dir, files + [names[n]], sum) == Checksums(dir, files, sum) + [sum(path)]
            && Run(dir, names, n + 1, sum) == Register(Run(dir, names, n, sum), path, TileNumber(names[n]), sum(path))
  {
    assert names[..n + 1][..n] == names[..n];
    var files := TileFiles(names[..n]);
    assert (files + [names[n]])[..|files|] == files;
  }

  /** The dictionary's keys are the distinct checksums of the processed files, in order of first occurrence. */
  lemma {:induction false} RunKeys<C>(dir: string, names: seq<string>, n: nat, sum: string -> C)
    requires n <= |names|
    ensures Run(dir, names, n, sum).keys == Distinct(Checksums(dir, TileFiles(names[..n]), sum))
  {
    if n > 0 {
      var m := n - 1;
      RunKeys(dir, names, m, sum);
      if HasDigit(names[m]) {
        TileStep(dir, names, m, sum);
        var files := TileFiles(names[..m]);
        Snoc(dir, files, Checksums(dir, files, sum), names[m], sum(Join(dir, names[m])));
      } else {
        SkipStep(dir, names, m, sum);
      }
    }
  }

  /** Every processed tile's id is one plus the position of its checksum among the keys. */
  lemma {:induction false} RunIds<C>(dir: string, names: seq<string>, n: nat, sum: string -> C)
    requires n <= |names|
    ensures var cs, r := Checksums(dir, TileFiles(names[..n]), sum), Run(dir, names, n, sum);
            && |r.ids| == |cs|
            && forall k :: 0 <= k < |cs| ==> cs[k] in r.keys && r.ids[k] == IndexOf(r.keys, cs[k]) + 1
  {
    if n > 0 {
      var m := n - 1;
      RunIds(dir, names, m, sum);
      if HasDigit(names[m]) {
        IdsTile(dir, names, m, sum);
      } else {
        SkipStep(dir, names, m, sum);
      }
    }
  }

  lemma IdsTile<C>(dir: string, names: seq<string>, m: nat, sum: string -> C)
    requires m < |names| && HasDigit(names[m])
    requires var cs, r := Checksums(dir, TileFiles(names[..m]), sum), Run(dir, names, m, sum);
             && |r.ids| == |cs|
             && forall k :: 0 <= k < |cs| ==> cs[k] in r.keys && r.ids[k] == IndexOf(r.keys, cs[k]) + 1
    ensures var cs, r := Checksums(dir, TileFiles(names[..m + 1]), sum), Run(dir, names, m + 1, sum);
            && |r.ids| == |cs|
            && forall k :: 0 <= k < |cs| ==> cs[k] in r.keys && r.ids[k] == IndexOf(r.keys, cs[k]) + 1
  {
    TileStep(dir, names, m, sum);
    var path := Join(dir, names[m]);
    IdsRegister(Run(dir, names, m, sum), Checksums(dir, TileFiles(names[..m]), sum), path, TileNumber(names[m]), sum(path));
  }

  /** One `Register` step keeps every id equal to one plus its checksum's position among the keys. */
  lemma IdsRegister<C>(r: Registry<C>, cs: seq<C>, path: string, num: string, c: C)
    requires |r.ids| == |cs|
    requires forall k :: 0 <= k < |cs| ==> cs[k] in r.keys && r.ids[k] == IndexOf(r.keys, cs[k]) + 1
    ensures var r', cs' := Register(r, path, num, c), cs + [c];
            && |r'.ids| == |cs'|
            && forall k :: 0 <= k < |cs'| ==> cs'[k] in r'.keys && r'.ids[k] == IndexOf(r'.keys, cs'[k]) + 1
  {
    var r' := Register(r, path, num, c);
    forall k | 0 <= k < |cs|
      ensures cs[k] in r'.keys && r'.ids[k] == IndexOf(r'.keys, cs[k]) + 1
    {
      if c !in r.keys {
        IndexOfAppend(r.keys, [c], cs[k]);
      }
    }
  }

  /** The paths on the removal list are those of the processed files whose checksum was seen before. */
  lemma {:induction false} RunRemoved<C>(dir: string, names: seq<string>, n: nat, sum: string -> C)
    requires n <= |names|
    ensures var files := TileFiles(names[..n]);
            Run(dir, names, n, sum).removed == Duplicates(dir, files, Checksums(dir, files, sum))
  {
    if n > 0 {
      var m := n - 1;
      RunRemoved(dir, names, m, sum);
      if HasDigit(names[m]) {
        RunKeys(dir, names, m, sum);
        TileStep(dir, names, m, sum);
        var files := TileFiles(names[..m]);
        Snoc(dir, files, Checksums(dir, files, sum), names[m], sum(Join(dir, names[m])));
      } else {
        SkipStep(dir, names, m, sum);
      }
    }
  }

  /** Each registered value is the tile number of the first processed file that had the checksum. */
  lemma {:induction false} RunValues<C>(dir: string, names: seq<string>, n: nat, sum: string -> C)
    requires n <= |names|
    ensures var files, r := TileFiles(names[..n]), Run(dir, names, n, sum);
            var ps := FirstPositions(Checksums(dir, files, sum));
            && |r.values| == |ps|
            && forall m :: 0 <= m < |ps| ==> r.values[m] == TileNumber(files[ps[m]])
  {
    if n > 0 {
      var m := n - 1;
      RunValues(dir, names, m, sum);
      if HasDigit(names[m]) {
        ValuesTile(dir, names, m, sum);
      } else {
        SkipStep(dir, names, m, sum);
      }
    }
  }

  /** The dictionary grows by a value exactly when the tile is kept, as a first occurrence. */
  lemma ValuesStep<C>(dir: string, names: seq<string>, m: nat, sum: string -> C)
    requires m < |names| && HasDigit(names[m])
    ensures var files := TileFiles(names[..m]);
            var cs := Checksums(dir, files, sum);
            var c := sum(Join(dir, names[m]));
            var known := c in Distinct(cs);
            && Run(dir, names, m + 1, sum).values
               == Run(dir, names, m, sum).values + (if known then [] else [TileNumber(names[m])])
            && FirstPositions(cs + [c]) == FirstPositions(cs) + (if known then [] else [|files|])
  {
    var files := TileFiles(names[..m]);
    var cs, c := Checksums(dir, files, sum), sum(Join(dir, names[m]));
    var known := c in Distinct(cs);
    assert Run(dir, names, m + 1, sum).values
           == Run(dir, names, m, sum).values + (if known then [] else [TileNumber(names[m])]) by {
      RunKeys(dir, names, m, sum);
      TileStep(dir, names, m, sum);
    }
    assert FirstPositions(cs + [c]) == FirstPositions(cs) + (if known then [] else [|files|]) by {
      Snoc(dir, files, cs, names[m], c);
    }
  }

  lemma ValuesTile<C>(dir: string, names: seq<string>, m: nat, sum: string -> C)
    requires m < |names| && HasDigit(names[m])
    requires var files, r := TileFiles(names[..m]), Run(dir, names, m, sum);
             var ps := FirstPositions(Checksums(dir, files, sum));
             && |r.values| == |ps|
             && forall i :: 0 <= i < |ps| ==> r.values[i] == TileNumber(files[ps[i]])
    ensures var files, r := TileFiles(names[..m + 1]), Run(dir, names, m + 1, sum);
            var ps := FirstPositions(Checksums(dir, files, sum));
            && |r.values| == |ps|
            && forall i :: 0 <= i < |ps| ==> r.values[i] == TileNumber(files[ps[i]])
  {
    TileStep(dir, names, m, sum);
    ValuesStep(dir, names, m, sum);
    var files := TileFiles(names[..m]);
    var cs := Checksums(dir, files, sum);
    var c := sum(Join(dir, names[m]));
    ValuesSnoc(Run(dir, names, m, sum).values, files, FirstPositions(cs), names[m], c in Distinct(cs));
  }

  /**
   * One more processed name keeps every value equal to the tile number at its first
   * position: a new checksum adds the name's tile number and its position together.
   */
  lemma ValuesSnoc(vs: seq<string>, files: seq<string>, ps: seq<nat>, name: string, known: bool)
    requires HasDigit(name) && forall k :: 0 <= k < |files| ==> HasDigit(files[k])
    requires |vs| == |ps| && forall i :: 0 <= i < |ps| ==> ps[i] < |files| && vs[i] == TileNumber(files[ps[i]])
    ensures var vs', ps', files' := vs + (if known then [] else [TileNumber(name)]),
                                    ps + (if known then [] else [|files|]), files + [name];
            && |vs'| == |ps'|
            && forall i :: 0 <= i < |ps'| ==> ps'[i] < |files'| && vs'[i] == TileNumber(files'[ps'[i]])
  {
  }

  /** The registry after the whole listing, with the processed files and their checksums. */
  lemma Whole<C>(dir: string, names: seq<string>, sum: string -> C)
    ensures var files := TileFiles(names);
            var cs, r := Checksums(dir, files, sum), Run(dir, names, |names|, sum);
            && r.keys == Distinct(cs)
            && r.removed == Duplicates(dir, files, cs)
            && |r.ids| == |cs|
            && (forall k :: 0 <= k < |cs| ==> cs[k] in r.keys && r.ids[k] == IndexOf(r.keys, cs[k]) + 1)
            && |r.values| == |r.keys|
            && (forall m :: 0 <= m < |r.keys| ==> r.values[m] == TileNumber(files[FirstPositions(cs)[m]]))
  {
    assert names[..|names|] == names;
    RunKeys(dir, names, |names|, sum);
    RunRemoved(dir, names, |names|, sum);
    RunIds(dir, names, |names|, sum);
    RunValues(dir, names, |names|, sum);
  }

  /**
   * The keys are the checksums of the processed files, each exactly once, and the removal
   * list holds one path for every other processed file.
   */
  lemma DedupKeys<C>(dir: string, names: seq<string>, sum: string -> C)
    ensures var cs, r := Checksums(dir, TileFiles(names), sum), Run(dir, names, |names|, sum);
            && (forall c :: c in r.keys <==> c in cs)
            && (forall i, j :: 0 <= i < j < |r.keys| ==> r.keys[i] != r.keys[j])
            && |r.removed| + |r.keys| == |cs|
  {
    Whole(dir, names, sum);
    var files := TileFiles(names);
    var cs := Checksums(dir, files, sum);
    forall c
      ensures c in Distinct(cs) <==> c in cs
    {
      DistinctMember(cs, c);
    }
    DistinctNoDup(cs);
    DuplicatesCount(dir, files, cs);
  }

  /** Every map id lies between 1 and the number of distinct tiles and names the tile's checksum. */
  lemma DedupIds<C>(dir: string, names: seq<string>, sum: string -> C)
    ensures var cs, r := Checksums(dir, TileFiles(names), sum), Run(dir, names, |names|, sum);
            && |r.ids| == |cs|
            && (forall k :: 0 <= k < |cs| ==> 1 <= r.ids[k] <= |r.keys| && r.keys[r.ids[k] - 1] == cs[k])
  {
    assert names[..|names|] == names;
    RunIds(dir, names, |names|, sum);
    var cs, r := Checksums(dir, TileFiles(names), sum), Run(dir, names, |names|, sum);
    forall k | 0 <= k < |cs|
      ensures 1 <= r.ids[k] <= |r.keys| && r.keys[r.ids[k] - 1] == cs[k]
    {
      var i := IndexOf(r.keys, cs[k]);
      assert r.ids[k] == i + 1 && i < |r.keys| && r.keys[i] == cs[k];
    }
  }

  /** Two tiles share a map id exactly when they share a checksum. */
  lemma DedupIdsSame<C>(dir: string, names: seq<string>, sum: string -> C)
    ensures var cs, r := Checksums(dir, TileFiles(names), sum), Run(dir, names, |names|, sum);
            && |r.ids| == |cs|
            && (forall a, b :: 0 <= a < |cs| && 0 <= b < |cs| ==> (r.ids[a] == r.ids[b] <==> cs[a] == cs[b]))
  {
    assert names[..|names|] == names;
    RunIds(dir, names, |names|, sum);
  }

  /**
   * The value stored for each key is the tile number of the first processed file with that
   * checksum, and the kept files appear in listing order.
   */
  lemma DedupValues<C>(dir: string, names: seq<string>, sum: string -> C)
    ensures var files := TileFiles(names);
            var cs, r := Checksums(dir, files, sum), Run(dir, names, |names|, sum);
            var ps := FirstPositions(cs);
            && |r.values| == |r.keys| == |ps|
            && (forall m :: 0 <= m < |ps| ==>
                  && ps[m] < |files|
                  && cs[ps[m]] == r.keys[m]
                  && cs[ps[m]] !in cs[..ps[m]]
                  && r.values[m] == TileNumber(files[ps[m]]))
            && (forall i, j :: 0 <= i < j < |ps| ==> ps[i] < ps[j])
  {
    Whole(dir, names, sum);
    FirstPositionsFirst(Checksums(dir, TileFiles(names), sum));
  }

  /** `DedupIds` for one processed file. */
  lemma IdAt<C>(dir: string, names: seq<string>, sum: string -> C, k: nat)
    requires k < |TileFiles(names)|
    ensures var cs, r := Checksums(dir, TileFiles(names), sum), Run(dir, names, |names|, sum);
            |r.ids| == |cs| && 1 <= r.ids[k] <= |r.keys| && r.keys[r.ids[k] - 1] == cs[k]
  {
    DedupIds(dir, names, sum);
  }

  /** `DedupValues` for one key. */
  lemma ValueAt<C>(dir: string, names: seq<string>, sum: string -> C, m: nat)
    requires m < |Run(dir, names, |names|, sum).keys|
    ensures var files := TileFiles(names);
            var cs, r := Checksums(dir, files, sum), Run(dir, names, |names|, sum);
            var ps := FirstPositions(cs);
            && |r.values| == |r.keys| == |ps|
            && ps[m] < |files| && cs[ps[m]] == r.keys[m] && cs[ps[m]] !in cs[..ps[m]]
            && r.values[m] == TileNumber(files[ps[m]])
  {
    DedupValues(dir, names, sum);
  }

  /** A listing of identical tiles: one key, every id 1, every file but the first removed. */
  lemma AllIdentical<C>(dir: string, names: seq<string>, sum: string -> C)
    requires var cs := Checksums(dir, TileFiles(names), sum);
             cs != [] && forall k :: 0 <= k < |cs| ==> cs[k] == cs[0]
    ensures var cs, r := Checksums(dir, TileFiles(names), sum), Run(dir, names, |names|, sum);
            && r.keys == [cs[0]]
            && |r.ids| == |cs|
            && (forall k :: 0 <= k < |cs| ==> r.ids[k] == 1)
            && |r.removed| == |cs| - 1
  {
    var files := TileFiles(names);
    var cs, r := Checksums(dir, files, sum), Run(dir, names, |names|, sum);
    assert names[..|names|] == names;
    assert r.keys == [cs[0]] by {
      RunKeys(dir, names, |names|, sum);
      DistinctConstant(cs);
    }
    assert |r.ids| == |cs| && forall k :: 0 <= k < |cs| ==> r.ids[k] == 1 by {
      RunIds(dir, names, |names|, sum);
    }
    assert |r.removed| == |cs| - 1 by {
      RunRemoved(dir, names, |names|, sum);
      DistinctConstant(cs);
      DuplicatesCount(dir, files, cs);
    }
  }

  /** A sequence of one repeated value has that value as its only distinct element. */
  lemma {:induction false} DistinctConstant<C>(cs: seq<C>)
    requires cs != [] && forall k :: 0 <= k < |cs| ==> cs[k] == cs[0]
    ensures Distinct(cs) == [cs[0]]
  {
    if |cs| > 1 {
      var p := cs[..|cs| - 1];
      DistinctConstant(p);
    }
  }
}
