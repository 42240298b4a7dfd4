/**
 * The demo's command line (demo/args.cpp). The program name comes first and
 * the input file last; between them come options, each followed by its value.
 * ParseArgs is the meaning of a command line; Options.Parse scans argv with an
 * index and assigns the option fields in place, as the source assigns its
 * globals, and is proved to compute ParseArgs.
 */
module Args {
  import opened Wrappers
  import opened CScan

  datatype ImageFormat = Png | Svg

  /** INT_MAX of a 32-bit int, the default page limit. */
  const IntMax: int := 0x7FFF_FFFF

  /** Every value the command line sets; padding is top, bottom, left, right. */
  datatype Config = Config(
    inFile: string,
    imageFormat: ImageFormat,
    imagePrefix: string,
    maxPageSize: seq<int>,
    maxPages: int,
    outDir: string,
    padding: seq<int>,
    spacing: seq<int>)
  {
    predicate Shaped() {
      |maxPageSize| == 2 && |padding| == 4 && |spacing| == 2
    }
  }

  /** The values before parsing: no limit on the page size, at most 9999 pages, no padding or spacing. */
  function Defaults(): (c: Config)
    ensures c.Shaped() && c.maxPages > 0
  {
    Config("", Png, "page_", [IntMax, IntMax], 9999, "", [0, 0, 0, 0], [0, 0])
  }

  /** Why a command line is refused; each names the option (or the unknown word) it reports. */
  datatype ArgError =
    | MissingArgument(option: string)
    | UnknownValue(option: string, value: string)
    | Invalid(option: string, value: string)
    | NotPositive(option: string)
    | UnknownOption(option: string)

  /**
   * What parse does: print help and succeed, print the usage and fail, report
   * an error and fail, or return with the options set.
   */
  datatype Outcome = HelpRequested | NoInputFile | Failed(error: ArgError) | Parsed(config: Config)

  predicate IsOption(opt: string) {
    opt == "-image-format" || opt == "-image-prefix" || opt == "-max-size" || opt == "-max-pages" ||
    opt == "-out-dir" || opt == "-padding" || opt == "-spacing"
  }

  /** "-help" among the arguments after the program name, the input file included. */
  predicate HasHelp(argv: seq<string>) {
    exists k :: 1 <= k < |argv| && argv[k] == "-help"
  }

  /**
   * The values read by "%d:%d": a single number stands for both. Only called
   * when at least one number was read.
   */
  function BothOrOne(r: ScanResult): (v: seq<int>)
    requires 1 <= r.count == |r.values| <= 2
    ensures |v| == 2 && v[0] == r.values[0]
    ensures v[1] == if r.count == 1 then r.values[0] else r.values[1]
  {
    if r.count == 1 then [r.values[0], r.values[0]] else r.values
  }

  /** "-image-format": png or svg. */
  function ApplyImageFormat(value: string, c: Config): Result<Config, ArgError> {
    if value == "png" then Ok(c.(imageFormat := Png))
    else if value == "svg" then Ok(c.(imageFormat := Svg))
    else Err(UnknownValue("-image-format", value))
  }

  /** "-max-size" or "-spacing": one or two numbers, read with "%d:%d". */
  function ScanPair(opt: string, value: string): (r: Result<seq<int>, ArgError>)
    ensures r.Ok? ==> |r.value| == 2
  {
    var r := SScanf(value, ':', 2);
    if r.count < 1 then Err(Invalid(opt, value)) else Ok(BothOrOne(r))
  }

  /** "-max-pages": a number, which must be positive. */
  function ApplyMaxPages(value: string, c: Config): Result<Config, ArgError> {
    match StrToL(value)
    case None => Err(Invalid("-max-pages", value))
    case Some(n) => if n <= 0 then Err(NotPositive("-max-pages")) else Ok(c.(maxPages := n))
  }

  /** "-padding": exactly one or four numbers, read with "%d:%d:%d:%d". */
  function ScanPadding(value: string): (r: Result<seq<int>, ArgError>)
    ensures r.Ok? ==> |r.value| == 4
  {
    var r := SScanf(value, ':', 4);
    if r.count != 1 && r.count != 4 then Err(Invalid("-padding", value))
    else if r.count == 1 then Ok([r.values[0], r.values[0], r.values[0], r.values[0]])
    else Ok(r.values)
  }

  /** The effect of one option with its value on the configuration, or the error it reports. */
  function ApplyOption(opt: string, value: string, c: Config): (r: Result<Config, ArgError>)
    requires IsOption(opt) && c.Shaped()
    ensures r.Ok? ==> r.value.Shaped() && r.value.inFile == c.inFile
    ensures r.Ok? && c.maxPages > 0 ==> r.value.maxPages > 0
    ensures r.Err? ==> r.error.option == opt && (r.error.UnknownValue? || r.error.Invalid? || r.error.NotPositive?)
  {
    if opt == "-image-format" then ApplyImageFormat(value, c)
    else if opt == "-image-prefix" then Ok(c.(imagePrefix := value))
    else if opt == "-max-size" then
      match ScanPair(opt, value)
      case Err(e) => Err(e)
      case Ok(v) => Ok(c.(maxPageSize := v))
    else if opt == "-max-pages" then ApplyMaxPages(value, c)
    else if opt == "-out-dir" then Ok(c.(outDir := value))
    else if opt == "-padding" then
      match ScanPadding(value)
      case Err(e) => Err(e)
      case Ok(v) => Ok(c.(padding := v))
    else
      match ScanPair(opt, value)
      case Err(e) => Err(e)
      case Ok(v) => Ok(c.(spacing := v))
  }

  /**
   * The options argv[i..end], each followed by its value, applied in order;
   * end is the index of the input file. An unknown word fails at once; a
   * known option in the last place before the input file misses its value.
   */
  function ParseOptions(argv: seq<string>, i: nat, end: nat, c: Config): Outcome
    requires i <= end < |argv| && c.Shaped()
    decreases end - i
  {
    if i >= end then Parsed(c)
    else if !IsOption(argv[i]) then Failed(UnknownOption(argv[i]))
    else if i + 1 == end then Failed(MissingArgument(argv[i]))
    else
      match ApplyOption(argv[i], argv[i + 1], c)
      case Err(e) => Failed(e)
      case Ok(c') => ParseOptions(argv, i + 2, end, c')
  }

  /** The meaning of a command line, starting from the values c. */
  function ParseArgs(argv: seq<string>, c: Config): Outcome
    requires c.Shaped()
  {
    if HasHelp(argv) then HelpRequested
    else if |argv| < 2 then NoInputFile
    else ParseOptions(argv, 1, |argv| - 1, c.(inFile := argv[|argv| - 1]))
  }

  /** The variables parse assigns, with the fixed-size arrays of the source. */
  class Options {
    var inFile: string
    var imageFormat: ImageFormat
    var imagePrefix: string
    const maxPageSize: array<int>
    var maxPages: int
    var outDir: string
    const padding: array<int>
    const spacing: array<int>

    ghost predicate Valid()
      reads this
    {
      maxPageSize.Length == 2 && padding.Length == 4 && spacing.Length == 2 &&
      maxPageSize != padding && maxPageSize != spacing && padding != spacing
    }

    function Current(): (c: Config)
      reads this, maxPageSize, padding, spacing
      requires Valid()
      ensures c.Shaped()
    {
      Config(inFile, imageFormat, imagePrefix, maxPageSize[..], maxPages, outDir, padding[..], spacing[..])
    }

    /** The variables with their initial values. */
    constructor ()
      ensures Valid() && Current() == Defaults()
      ensures fresh(maxPageSize) && fresh(padding) && fresh(spacing)
    {
      inFile := "";
      imageFormat := Png;
      imagePrefix := "page_";
      maxPageSize := new int[2] [IntMax, IntMax];
      maxPages := 9999;
      outDir := "";
      padding := new int[4] [0, 0, 0, 0];
      spacing := new int[2] [0, 0];
    }

    /** The "%d:%d" branches: scan into the two-element array a, then copy a single number. */
    method ReadPair(opt: string, value: string, a: array<int>) returns (err: Option<ArgError>)
      requires a.Length == 2
      modifies a
      ensures var r := ScanPair(opt, value);
        (r.Ok? ==> err.None? && a[..] == r.value) && (r.Err? ==> err == Some(r.error))
    {
      var r := SScanf(value, ':', 2);
      if r.count < 1 {
        return Some(Invalid(opt, value));
      }
      a[0] := r.values[0];
      if r.count == 2 {
        a[1] := r.values[1];
      }
      if r.count == 1 {
        a[1] := a[0];
      }
      assert a[..] == BothOrOne(r);
      err := None;
    }

    /** The "-padding" branch: scan up to four numbers, then copy a single one to the other sides. */
    method ReadPadding(value: string) returns (err: Option<ArgError>)
      requires padding.Length == 4
      modifies padding
      ensures var r := ScanPadding(value);
        (r.Ok? ==> err.None? && padding[..] == r.value) && (r.Err? ==> err == Some(r.error))
    {
      var r := SScanf(value, ':', 4);
      // sscanf stores the numbers it converted, and only those.
      forall j | 0 <= j < r.count {
        padding[j] := r.values[j];
      }
      if r.count != 1 && r.count != 4 {
        return Some(Invalid("-padding", value));
      }
      if r.count == 1 {
        FillPadding();
      } else {
        assert padding[..] == r.values;
      }
      err := None;
    }

    /** A single padding number pads all four sides. */
    method FillPadding()
      requires padding.Length == 4
      modifies padding
      ensures padding[..] == [old(padding[0]), old(padding[0]), old(padding[0]), old(padding[0])]
    {
      for i := 1 to 4
        invariant padding[0] == old(padding[0])
        invariant forall j :: 0 <= j < i ==> padding[j] == padding[0]
      {
        padding[i] := padding[0];
      }
    }

    /**
     * One branch of parse's option loop: the option opt with its value. On an
     * error the process exits, so what the variables then hold does not matter.
     */
    method Apply(opt: string, value: string) returns (err: Option<ArgError>)
      requires Valid() && IsOption(opt)
      modifies this, maxPageSize, padding, spacing
      ensures Valid() && unchanged(this`inFile)
      ensures var r := ApplyOption(opt, value, old(Current()));
        (r.Ok? ==> err.None? && Current() == r.value) && (r.Err? ==> err == Some(r.error))
    {
      err := None;
      if opt == "-image-format" {
        if value == "png" {
          imageFormat := Png;
        } else if value == "svg" {
          imageFormat := Svg;
        } else {
          err := Some(UnknownValue(opt, value));
        }
      } else if opt == "-image-prefix" {
        imagePrefix := value;
      } else if opt == "-max-size" {
        err := ReadPair(opt, value, maxPageSize);
      } else if opt == "-max-pages" {
        var n := StrToL(value);
        maxPages := if n.Some? then n.value else 0;
        if n.None? {
          err := Some(Invalid(opt, value));
        } else if maxPages <= 0 {
          err := Some(NotPositive(opt));
        }
      } else if opt == "-out-dir" {
        outDir := value;
      } else if opt == "-padding" {
        err := ReadPadding(value);
      } else {
        err := ReadPair(opt, value, spacing);
      }
    }

    /**
     * parse: look for "-help" first, then take the last argument as the input
     * file and scan the options before it. A missing value stops the scan and
     * is reported after it.
     */
    method Parse(argv: seq<string>) returns (outcome: Outcome)
      requires Valid()
      modifies this, maxPageSize, padding, spacing
      ensures Valid()
      ensures outcome == ParseArgs(argv, old(Current()))
      ensures outcome.Parsed? ==> Current() == outcome.config
    {
      var i := 1;
      while i < |argv|
        invariant 1 <= i && (|argv| >= 1 ==> i <= |argv|)
        invariant forall k :: 1 <= k < i && k < |argv| ==> argv[k] != "-help"
      {
        if argv[i] == "-help" {
          return HelpRequested;
        }
        i := i + 1;
      }

      if |argv| < 2 {
        return NoInputFile;
      }

      ghost var start := old(Current()).(inFile := argv[|argv| - 1]);
      inFile := argv[|argv| - 1];
      var argc := |argv| - 1;
      var missingArgument := 0;
      i := 1;
      assert Current() == start;
      while i < argc
        invariant 1 <= i <= argc && Valid() && inFile == argv[|argv| - 1]
        invariant missingArgument == 0 && ParseOptions(argv, i, argc, Current()) == ParseOptions(argv, 1, argc, start)
        decreases argc - i
      {
        if !IsOption(argv[i]) {
          return Failed(UnknownOption(argv[i]));
        }
        i := i + 1;
        if i == argc {
          missingArgument := i - 1;
          break;
        }
        var err := Apply(argv[i - 1], argv[i]);
        if err.Some? {
          return Failed(err.value);
        }
        i := i + 1;
      }

      if missingArgument > 0 {
        return Failed(MissingArgument(argv[missingArgument]));
      }
      outcome := Parsed(Current());
    }
  }

  // ---------------------------------------------------------------------------
  // What the command line promises

  /** The option scan ends in an error or with the options set, never in help or usage. */
  lemma {:induction false} ParseOptionsEnds(argv: seq<string>, i: nat, end: nat, c: Config)
    requires i <= end < |argv| && c.Shaped()
    ensures ParseOptions(argv, i, end, c).Failed? || ParseOptions(argv, i, end, c).Parsed?
    decreases end - i
  {
    if i < end && IsOption(argv[i]) && i + 1 < end {
      var r := ApplyOption(argv[i], argv[i + 1], c);
      if r.Ok? {
        assert ParseOptions(argv, i, end, c) == ParseOptions(argv, i + 2, end, r.value);
        ParseOptionsEnds(argv, i + 2, end, r.value);
      }
    }
  }

  /** "-help" anywhere wins over everything else, and only "-help" gives help. */
  lemma {:induction false} HelpFirst(argv: seq<string>, c: Config)
    requires c.Shaped()
    ensures ParseArgs(argv, c) == HelpRequested <==> HasHelp(argv)
  {
    if !HasHelp(argv) && |argv| >= 2 {
      ParseOptionsEnds(argv, 1, |argv| - 1, c.(inFile := argv[|argv| - 1]));
    }
  }

  /** Without "-help", a command line with no argument after the program name is a usage failure, and only such a one. */
  lemma {:induction false} UsageWithoutInput(argv: seq<string>, c: Config)
    requires c.Shaped() && !HasHelp(argv)
    ensures ParseArgs(argv, c) == NoInputFile <==> |argv| < 2
  {
    if |argv| >= 2 {
      ParseOptionsEnds(argv, 1, |argv| - 1, c.(inFile := argv[|argv| - 1]));
    }
  }

  /** The scan keeps the input file, and a positive page limit stays positive. */
  lemma {:induction false} ParseOptionsKeeps(argv: seq<string>, i: nat, end: nat, c: Config)
    requires i <= end < |argv| && c.Shaped()
    ensures var o := ParseOptions(argv, i, end, c);
      o.Parsed? ==> o.config.Shaped() && o.config.inFile == c.inFile && (c.maxPages > 0 ==> o.config.maxPages > 0)
    decreases end - i
  {
    if i < end && IsOption(argv[i]) && i + 1 < end {
      var r := ApplyOption(argv[i], argv[i + 1], c);
      if r.Ok? {
        assert ParseOptions(argv, i, end, c) == ParseOptions(argv, i + 2, end, r.value);
        ParseOptionsKeeps(argv, i + 2, end, r.value);
      }
    }
  }

  /** Whatever the options, the input file is the last argument, and the page limit parsed from the defaults is positive. */
  lemma {:induction false} InFileIsLast(argv: seq<string>)
    ensures var o := ParseArgs(argv, Defaults());
      o.Parsed? ==> |argv| >= 2 && o.config.inFile == argv[|argv| - 1] && o.config.maxPages > 0 && o.config.Shaped()
  {
    if !HasHelp(argv) && |argv| >= 2 {
      ParseOptionsKeeps(argv, 1, |argv| - 1, Defaults().(inFile := argv[|argv| - 1]));
    }
  }

  /**
   * A missing value is always that of the option right before the input file,
   * and an unknown option is a word that is not an option.
   */
  lemma {:induction false} ParseOptionsErrors(argv: seq<string>, i: nat, end: nat, c: Config)
    requires 1 <= i <= end < |argv| && c.Shaped()
    ensures var o := ParseOptions(argv, i, end, c);
      (o.Failed? && o.error.MissingArgument? ==> o.error.option == argv[end - 1] && IsOption(argv[end - 1])) &&
      (o.Failed? && o.error.UnknownOption? ==> !IsOption(o.error.option))
    decreases end - i
  {
    if i < end && IsOption(argv[i]) && i + 1 < end {
      var r := ApplyOption(argv[i], argv[i + 1], c);
      if r.Ok? {
        assert ParseOptions(argv, i, end, c) == ParseOptions(argv, i + 2, end, r.value);
        ParseOptionsErrors(argv, i + 2, end, r.value);
      } else {
        assert ParseOptions(argv, i, end, c) == Failed(r.error);
      }
    }
  }

  /** "-max-size N" and "-spacing N" set both components to N; "-max-size W:H" sets them to W and H. */
  lemma {:induction false} SingleNumberSetsBoth(opt: string, n: int, m: int, c: Config)
    requires (opt == "-max-size" || opt == "-spacing") && c.Shaped()
    ensures var r := ApplyOption(opt, IntToString(n), c);
      r.Ok? && (if opt == "-max-size" then r.value.maxPageSize else r.value.spacing) == [n, n]
    ensures var r := ApplyOption(opt, Joined([n, m], ':'), c);
      r.Ok? && (if opt == "-max-size" then r.value.maxPageSize else r.value.spacing) == [n, m]
  {
    assert Joined([n], ':') + [] == IntToString(n);
    ScanJoined([n], ':', [], 2);
    assert Joined([n, m], ':') + [] == Joined([n, m], ':');
    ScanJoined([n, m], ':', [], 2);
  }

  /** "-padding" takes exactly one or four numbers; one number pads all four sides. */
  lemma {:induction false} PaddingOneOrFour(value: string, c: Config)
    requires c.Shaped()
    ensures ApplyOption("-padding", value, c).Ok? <==> SScanf(value, ':', 4).count in {1, 4}
    ensures var r := ApplyOption("-padding", value, c);
      r.Ok? ==> var p := r.value.padding; p[0] == p[1] == p[2] == p[3] || SScanf(value, ':', 4).count == 4
  {
  }

  /** Four numbers set the sides in the order top, bottom, left, right; one number sets all four. */
  lemma {:induction false} PaddingValues(t: int, b: int, l: int, r: int, c: Config)
    requires c.Shaped()
    ensures ApplyOption("-padding", Joined([t, b, l, r], ':'), c) == Ok(c.(padding := [t, b, l, r]))
    ensures ApplyOption("-padding", IntToString(t), c) == Ok(c.(padding := [t, t, t, t]))
  {
    assert Joined([t, b, l, r], ':') + [] == Joined([t, b, l, r], ':');
    ScanJoined([t, b, l, r], ':', [], 4);
    assert Joined([t], ':') + [] == IntToString(t);
    ScanJoined([t], ':', [], 4);
  }

  /** "-padding" with two or three numbers is refused. */
  lemma {:induction false} PaddingTwoRefused(t: int, b: int, c: Config)
    requires c.Shaped()
    ensures ApplyOption("-padding", Joined([t, b], ':'), c) == Err(Invalid("-padding", Joined([t, b], ':')))
  {
    assert Joined([t, b], ':') + [] == Joined([t, b], ':');
    ScanJoined([t, b], ':', [], 4);
  }

  /** "-max-pages" needs a number and the number must be positive. */
  lemma {:induction false} MaxPagesPositive(value: string, c: Config)
    requires c.Shaped()
    ensures var r := ApplyOption("-max-pages", value, c);
      (r.Ok? <==> StrToL(value).Some? && StrToL(value).value > 0) &&
      (r.Ok? ==> r.value.maxPages == StrToL(value).value) &&
      (StrToL(value).None? ==> r == Err(Invalid("-max-pages", value))) &&
      (StrToL(value).Some? && StrToL(value).value <= 0 ==> r == Err(NotPositive("-max-pages")))
  {
  }

  /** "-image-format" takes only "png" and "svg". */
  lemma {:induction false} ImageFormatValues(value: string, c: Config)
    requires c.Shaped()
    ensures var r := ApplyOption("-image-format", value, c);
      (r.Ok? <==> value == "png" || value == "svg") &&
      (value == "png" ==> r == Ok(c.(imageFormat := Png))) &&
      (value == "svg" ==> r == Ok(c.(imageFormat := Svg)))
  {
  }

  /** An option with no value before the input file is reported by name. */
  lemma {:induction false} MissingValueReported()
    ensures ParseArgs(["demo", "-padding", "in.txt"], Defaults()) == Failed(MissingArgument("-padding"))
    ensures ParseArgs(["demo", "-max-pages"], Defaults()) == Parsed(Defaults().(inFile := "-max-pages"))
  {
    assert !HasHelp(["demo", "-padding", "in.txt"]);
    assert !HasHelp(["demo", "-max-pages"]);
  }

  /** The options of ExampleCommandLine, one at a time. */
  lemma {:induction false} ExampleMaxSize(c: Config)
    requires c.Shaped()
    ensures ApplyOption("-max-size", "512", c) == Ok(c.(maxPageSize := [512, 512]))
  {
    assert IntToString(512) == "512";
    SingleNumberSetsBoth("-max-size", 512, 512, c);
  }

  lemma {:induction false} ExampleSpacing(c: Config)
    requires c.Shaped()
    ensures ApplyOption("-spacing", "1:2", c) == Ok(c.(spacing := [1, 2]))
  {
    assert Joined([1, 2], ':') == "1:2";
    SingleNumberSetsBoth("-spacing", 1, 2, c);
  }

  /** A full command line: the options take effect in order and the last word is the input file. */
  lemma {:induction false} ExampleCommandLine()
    ensures ParseArgs(["demo", "-max-size", "512", "-spacing", "1:2", "-image-format", "svg", "rects.txt"], Defaults())
      == Parsed(Defaults().(inFile := "rects.txt", maxPageSize := [512, 512], spacing := [1, 2], imageFormat := Svg))
  {
    var argv := ["demo", "-max-size", "512", "-spacing", "1:2", "-image-format", "svg", "rects.txt"];
    var c0 := Defaults().(inFile := "rects.txt");
    var c1 := c0.(maxPageSize := [512, 512]);
    var c2 := c1.(spacing := [1, 2]);
    var c3 := c2.(imageFormat := Svg);
    assert !HasHelp(argv) by {
      assert forall k :: 1 <= k < |argv| ==> argv[k] != "-help";
    }
    assert ParseOptions(argv, 5, 7, c2) == Parsed(c3) by {
      assert argv[5] == "-image-format" && argv[6] == "svg";
    }
    assert ParseOptions(argv, 3, 7, c1) == Parsed(c3) by {
      ExampleSpacing(c1);
      assert argv[3] == "-spacing" && argv[4] == "1:2";
    }
    assert ParseOptions(argv, 1, 7, c0) == Parsed(c3) by {
      ExampleMaxSize(c0);
      assert argv[1] == "-max-size" && argv[2] == "512";
    }
  }
}
