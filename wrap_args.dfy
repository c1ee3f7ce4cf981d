/**
 * Command-line handling shared by vwrap_up.py and vwrap.py:
 * `script input_images -- output_image width step`. The two scripts differ only in what
 * happens when the values after `--` are not exactly three: vwrap_up.py catches the failed
 * unpacking, reports a missing parameter and shows its usage text, while vwrap.py lets the
 * `ValueError` escape.
 */
module WrapArgs {
  import opened Wrappers
  import opened Text

  datatype Params = Params(inputs: seq<string>, output: string, width: int, step: int)

  /** Why a script ends before opening any image. */
  datatype Stop =
    | Usage             // `--help` given, or fewer than three arguments
    | MissingParameter  // not exactly three values after the inputs (vwrap_up.py)
    | ZeroWidth
    | WidthNotMultiple
    | BadStep
    | Crash             // an uncaught `ValueError`: `int()` of a non-number, or the unpacking in vwrap.py

  /** How a script ends: stopped before writing anything, or with the sheet saved to `output`. */
  datatype Exit = Stopped(why: Stop) | Saved(output: string)

  /** Python's clamped slice `s[i:j]` for non-negative bounds. */
  function Slice<T>(s: seq<T>, i: nat, j: nat): (r: seq<T>)
    ensures i <= j <= |s| ==> r == s[i..j]
    ensures |r| <= |s|
  {
    var a := if i <= |s| then i else |s|;
    var b := if j <= |s| then j else |s|;
    if a <= b then s[a..b] else []
  }

  /** What `int()` accepts here: an optional sign followed by ASCII digits. */
  predicate Numeral(s: string) {
    var d := if s != [] && (s[0] == '+' || s[0] == '-') then s[1..] else s;
    d != [] && AllDigits(d)
  }

  /** `int(s)`; `None` stands for the `ValueError` it raises on anything else. */
  function ParseInt(s: string): (r: Option<int>)
    ensures r.Some? <==> Numeral(s)
    ensures r.Some? && s[0] == '-' ==> r.value <= 0
    ensures r.Some? && s[0] != '-' ==> r.value >= 0
  {
    if s != [] && (s[0] == '+' || s[0] == '-') then
      var d := s[1..];
      if d != [] && AllDigits(d) then Some(if s[0] == '-' then 0 - Value(d) else Value(d)) else None
    else if s != [] && AllDigits(s) then Some(Value(s))
    else None
  }

  /** The decimal text of an integer, with a minus sign when it is negative. */
  function Render(n: int): (s: string)
    ensures Numeral(s)
  {
    if n < 0 then "-" + Show(-n) else Show(n)
  }

  /** Reading back a rendered integer gives the integer. */
  lemma ParseRender(n: int)
    ensures ParseInt(Render(n)) == Some(n)
  {
    if n < 0 {
      ValueShow(-n);
      ParseNegative(Show(-n));
    } else {
      ValueShow(n);
      ParseUnsigned(Show(n));
    }
  }

  /** Digits without a sign read as their value. */
  lemma ParseUnsigned(d: string)
    requires d != [] && AllDigits(d)
    ensures ParseInt(d) == Some(Value(d))
  {
    assert IsDigit(d[0]);
  }

  /** A minus sign followed by digits reads as the negated value of the digits. */
  lemma ParseNegative(d: string)
    requires d != [] && AllDigits(d)
    ensures ParseInt("-" + d) == Some(0 - Value(d))
  {
    var s := "-" + d;
    assert s[0] == '-' && s[1..] == d;
  }

  /** The checks on the two numbers, in the scripts' order: `None` when both pass. */
  function Validate(width: int, step: int): (r: Option<Stop>)
    ensures r.None? <==> width != 0 && width % 8 == 0 && step in {1, 2, 4}
    ensures r.Some? ==> r.value in {ZeroWidth, WidthNotMultiple, BadStep}
    ensures r == Some(ZeroWidth) <==> width == 0
  {
    if width == 0 then Some(ZeroWidth)
    else if width % 8 != 0 then Some(WidthNotMultiple)
    else if !(step in {1, 2, 4}) then Some(BadStep)
    else None
  }

  /** Python's `%` by 8 never goes negative, so a negative multiple of 8 passes as a width. */
  lemma NegativeWidthPasses(n: nat, step: int)
    requires n >= 1 && step in {1, 2, 4}
    ensures Validate(-8 * n, step) == None
  {
    var m: int := n;
    assert -8 * m == 8 * -m;
  }

  /**
   * The inputs and the values that follow them, as lines 57-67 of vwrap_up.py and 13-18 of
   * vwrap.py split them: around the first `--` when there is one, else `argv[1:2]` and
   * `argv[2:4]`, which holds at most two values.
   */
  function SplitAsWritten(argv: seq<string>): (r: (seq<string>, seq<string>))
    ensures "--" !in argv ==> r == (Slice(argv, 1, 2), Slice(argv, 2, 4))
    ensures "--" in argv ==> var k := IndexOf(argv, "--");
                              r.0 == Slice(argv, 1, k) && r.1 == argv[k + 1..]
  {
    if "--" in argv then
      var k := IndexOf(argv, "--");
      (Slice(argv, 1, k), argv[k + 1..])
    else (Slice(argv, 1, 2), Slice(argv, 2, 4))
  }

  /**
   * Without `--` the three values `output_image width step` that follow the single input can
   * never be unpacked from `argv[2:4]`: the command line `script in.png out.png 16 2` ends in
   * the missing-parameter branch.
   */
  lemma SeparatorlessAsWritten(argv: seq<string>)
    requires "--" !in argv
    ensures |SplitAsWritten(argv).1| <= 2
    ensures |argv| >= 5 ==> |Split(argv).1| == 3 && SplitAsWritten(argv).0 == Split(argv).0
  {
  }

  /**
   * The split with the values after a single input taken as `argv[2:5]`, the three names the
   * unpacking expects; with `--` it is the split as written.
   */
  function Split(argv: seq<string>): (r: (seq<string>, seq<string>))
    ensures "--" !in argv ==> r == (Slice(argv, 1, 2), Slice(argv, 2, 5))
    ensures "--" in argv ==> r == SplitAsWritten(argv)
  {
    if "--" in argv then SplitAsWritten(argv)
    else (Slice(argv, 1, 2), Slice(argv, 2, 5))
  }

  /**
   * The argument handling of either script, given how it splits the command line into
   * inputs and values. `unpackFailure` is what the script does when the values are not
   * three: vwrap_up.py reports a missing parameter (`MissingParameter`), and in vwrap.py
   * the `ValueError` of the unpacking escapes (`Crash`).
   */
  function Parse(argv: seq<string>, parts: (seq<string>, seq<string>), unpackFailure: Stop): (r: Result<Params, Stop>)
    requires unpackFailure == MissingParameter || unpackFailure == Crash
    ensures r == Err(Usage) <==> "--help" in argv || |argv| < 4
    ensures "--help" !in argv && |argv| >= 4 && |parts.1| != 3 ==> r == Err(unpackFailure)
    ensures "--help" !in argv && |argv| >= 4 && |parts.1| == 3
            && (ParseInt(parts.1[1]).None? || ParseInt(parts.1[2]).None?)
            ==> r == Err(Crash)
    ensures "--help" !in argv && |argv| >= 4 && |parts.1| == 3
            && ParseInt(parts.1[1]).Some? && ParseInt(parts.1[2]).Some?
            ==> var w, s := ParseInt(parts.1[1]).value, ParseInt(parts.1[2]).value;
              && (Validate(w, s).Some? ==> r == Err(Validate(w, s).value))
              && (Validate(w, s).None? ==> r == Ok(Params(parts.0, parts.1[0], w, s)))
    ensures r.Ok? ==> |argv| >= 4 && "--help" !in argv
                      && r.value.inputs == parts.0 && |parts.1| == 3 && r.value.output == parts.1[0]
                      && ParseInt(parts.1[1]) == Some(r.value.width) && ParseInt(parts.1[2]) == Some(r.value.step)
                      && Validate(r.value.width, r.value.step).None?
  {
    if "--help" in argv || |argv| < 4 then Err(Usage)
    else
      var (inputs, rest) := parts;
      if |rest| != 3 then Err(unpackFailure)
      else match (ParseInt(rest[1]), ParseInt(rest[2]))
        case (Some(width), Some(step)) =>
          (match Validate(width, step)
           case Some(why) => Err(why)
           case None => Ok(Params(inputs, rest[0], width, step)))
        case _ => Err(Crash)
  }

  /** vwrap_up.py (lines 53-85), splitting as written. */
  function ParseUp(argv: seq<string>): (r: Result<Params, Stop>)
    ensures r.Ok? ==> "--" in argv
    ensures "--help" !in argv && |argv| >= 4 && "--" in argv && |argv| - IndexOf(argv, "--") != 4
            ==> r == Err(MissingParameter)
  {
    Parse(argv, SplitAsWritten(argv), MissingParameter)
  }

  /** vwrap.py (lines 8-33), splitting as written. */
  function ParseVwrap(argv: seq<string>): (r: Result<Params, Stop>)
    ensures r.Ok? ==> "--" in argv
    ensures "--help" !in argv && |argv| >= 4 && "--" in argv && |argv| - IndexOf(argv, "--") != 4
            ==> r == Err(Crash)
  {
    Parse(argv, SplitAsWritten(argv), Crash)
  }

  /** vwrap_up.py's argument handling with the corrected split. */
  function ParseUpFixed(argv: seq<string>): Result<Params, Stop> {
    Parse(argv, Split(argv), MissingParameter)
  }

  /** vwrap.py's argument handling with the corrected split. */
  function ParseVwrapFixed(argv: seq<string>): Result<Params, Stop> {
    Parse(argv, Split(argv), Crash)
  }

  /** The two scripts agree except where vwrap_up.py reports a missing parameter and vwrap.py crashes. */
  lemma ScriptsAgree(argv: seq<string>)
    ensures ParseVwrap(argv) == if ParseUp(argv) == Err(MissingParameter) then Err(Crash) else ParseUp(argv)
  {
  }

  /** Without `--` neither script gets going: vwrap_up.py shows its usage text, vwrap.py crashes. */
  lemma NoSeparator(argv: seq<string>)
    requires "--" !in argv && "--help" !in argv && |argv| >= 4
    ensures ParseUp(argv) == Err(MissingParameter) && ParseVwrap(argv) == Err(Crash)
  {
    SeparatorlessAsWritten(argv);
  }

  /** With `--` on the command line the corrected handling is the handling as written. */
  lemma FixedWithSeparator(argv: seq<string>)
    requires "--" in argv
    ensures ParseUpFixed(argv) == ParseUp(argv) && ParseVwrapFixed(argv) == ParseVwrap(argv)
  {
  }

  /** The command line a user writes for `p`. */
  function CommandLine(program: string, p: Params): (argv: seq<string>)
    ensures |argv| == |p.inputs| + 5
  {
    [program] + p.inputs + ["--", p.output, Render(p.width), Render(p.step)]
  }

  /** A rendered number is neither the `--help` flag nor the `--` separator. */
  lemma NumeralNotFlag(s: string)
    requires Numeral(s)
    ensures s != "--help" && s != "--"
  {
    var help, sep := "--help", "--";
    assert help[1..][0] == '-' && sep[1..] == "-" && !IsDigit('-');
    assert !Numeral(help) && !Numeral(sep);
  }

  /** The `--` written after the inputs is the first one, so the split finds the parts again. */
  lemma SplitCommandLine(program: string, p: Params)
    requires "--" !in [program] + p.inputs
    ensures SplitAsWritten(CommandLine(program, p)) == (p.inputs, [p.output, Render(p.width), Render(p.step)])
  {
    var argv := CommandLine(program, p);
    var k := |p.inputs| + 1;
    assert argv[k] == "--" && argv[..k] == [program] + p.inputs;
    assert IndexOf(argv, "--") == k;
    assert argv[1..k] == p.inputs;
    assert argv[k + 1..] == [p.output, Render(p.width), Render(p.step)];
  }

  /** `--help` appears in the command line only if it is one of the names written into it. */
  lemma CommandLineNoHelp(program: string, p: Params)
    requires "--help" !in [program] + p.inputs + [p.output]
    ensures "--help" !in CommandLine(program, p)
  {
    NumeralNotFlag(Render(p.width));
    NumeralNotFlag(Render(p.step));
    var argv := CommandLine(program, p);
    var names := [program] + p.inputs;
    assert "--help" !in names && "--help" != p.output by {
      assert [program] + p.inputs + [p.output] == names + [p.output];
    }
    assert argv == names + ["--", p.output, Render(p.width), Render(p.step)];
  }

  /**
   * Any valid parameters written out as a command line are read back unchanged, as long as no
   * input is itself `--` and neither `--help` nor `--` appears where a name is expected.
   */
  lemma ParseCommandLine(program: string, p: Params)
    requires Validate(p.width, p.step).None?
    requires "--" !in [program] + p.inputs && "--help" !in [program] + p.inputs + [p.output]
    ensures ParseUp(CommandLine(program, p)) == Ok(p)
    ensures ParseVwrap(CommandLine(program, p)) == Ok(p)
  {
    SplitCommandLine(program, p);
    CommandLineNoHelp(program, p);
    ParseRender(p.width);
    ParseRender(p.step);
  }

  /**
   * A command line that leaves out the step after `--` has two values: vwrap_up.py reports a
   * missing parameter and vwrap.py crashes on the unpacking.
   */
  lemma MissingStep(program: string, p: Params)
    requires "--" !in [program] + p.inputs && "--help" !in [program] + p.inputs + [p.output]
    ensures var argv := CommandLine(program, p)[..|p.inputs| + 4];
            ParseUp(argv) == Err(MissingParameter) && ParseVwrap(argv) == Err(Crash)
  {
    var full := CommandLine(program, p);
    var argv := full[..|p.inputs| + 4];
    var k := |p.inputs| + 1;
    CommandLineNoHelp(program, p);
    assert "--help" !in argv by {
      forall w | w in argv ensures w != "--help" {
        assert w in full;
      }
    }
    assert argv[k] == "--" && argv[..k] == [program] + p.inputs;
    assert IndexOf(argv, "--") == k;
    assert full == [program] + p.inputs + ["--", p.output, Render(p.width), Render(p.step)];
    assert |argv| == k + 3 && argv[k + 1] == p.output && argv[k + 2] == Render(p.width);
    assert argv[k + 1..] == [p.output, Render(p.width)];
  }

  /**
   * A width that `int()` rejects stops both scripts with the `ValueError` of line 72, before
   * any check of the values.
   */
  lemma WidthNotNumber(program: string, inputs: seq<string>, output: string, width: string, step: string)
    requires "--" !in [program] + inputs && "--help" !in [program] + inputs + [output, width, step]
    requires !Numeral(width)
    ensures var argv := [program] + inputs + ["--", output, width, step];
            ParseUp(argv) == Err(Crash) && ParseVwrap(argv) == Err(Crash)
  {
    var argv := [program] + inputs + ["--", output, width, step];
    var k := |inputs| + 1;
    assert "--help" !in argv by {
      assert argv == ([program] + inputs + [output, width, step])[..k] + ["--"] + ([program] + inputs + [output, width, step])[k..];
    }
    assert argv[k] == "--" && argv[..k] == [program] + inputs;
    assert IndexOf(argv, "--") == k;
    assert argv[k + 1..] == [output, width, step];
  }

  /**
   * With the corrected split, the form without `--` works as its comment says: one input
   * followed by the output name, the width and the step.
   */
  lemma ParseSeparatorless(program: string, input: string, output: string, width: int, step: int)
    requires Validate(width, step).None?
    requires "--" !in [program, input, output] && "--help" !in [program, input, output]
    ensures ParseUpFixed([program, input, output, Render(width), Render(step)]) == Ok(Params([input], output, width, step))
    ensures ParseVwrapFixed([program, input, output, Render(width), Render(step)]) == Ok(Params([input], output, width, step))
  {
    var argv := [program, input, output, Render(width), Render(step)];
    NumeralNotFlag(Render(width));
    NumeralNotFlag(Render(step));
    assert "--" !in argv && "--help" !in argv;
    assert Slice(argv, 1, 2) == argv[1..2] == [input];
    assert Slice(argv, 2, 5) == argv[2..5] == [output, Render(width), Render(step)];
    ParseRender(width);
    ParseRender(step);
  }
}
