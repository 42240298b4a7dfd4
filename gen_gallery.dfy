/**
 * The pure parts of the gallery script (doc/gen_gallery.py): the rectangle
 * sets and their titles, the names of page images, the options the demo is
 * run with, the probe of a PNG header, the generation of a data file from
 * sampled values, and the discovery of the pages a run produced.
 */
module Gallery {
  import opened Wrappers
  import opened Bytes
  import opened Decimal
  import opened CScan
  import BitmapCanvas
  import Args
  import RectPack
  import DemoMain

  // ---------------------------------------------------------------------------
  // Rectangle sets

  /** An inclusive range of sampled values. */
  datatype Range = Range(lo: int, hi: int)

  /**
   * A set of rectangles: its file name, its title, how many rectangles, the
   * range of widths, the range of heights (none for squares), and whether
   * the sampled values are exponents of two.
   */
  datatype RectSet = RectSet(name: string, title: string, count: nat, wRange: Range, hRange: Option<Range>, pot: bool) {
    /** Non-empty ranges; exponents of two are never negative. */
    predicate Valid() {
      wRange.lo <= wRange.hi && (hRange.Some? ==> hRange.value.lo <= hRange.value.hi) &&
      (pot ==> wRange.lo >= 0 && (hRange.Some? ==> hRange.value.lo >= 0))
    }
  }

  const MaxPages: nat := 9999

  const RectSets: seq<RectSet> := [
    RectSet("rects", "rectangles", 500, Range(6, 100), Some(Range(6, 100)), false),
    RectSet("rects_tall", "tall rectangles", 500, Range(6, 30), Some(Range(30, 100)), false),
    RectSet("rects_wide", "wide rectangles", 500, Range(30, 100), Some(Range(6, 30)), false),
    RectSet("rects_pot", "power of two rectangles", 500, Range(2, 7), Some(Range(2, 7)), true),
    RectSet("squares", "squares", 500, Range(6, 100), None, false),
    RectSet("squares_pot", "power of two squares", 500, Range(2, 7), None, true)
  ]

  /** The two page modes: no size limit, or pages of at most 512 pixels. */
  const SizeLimits: seq<Option<int>> := [None, Some(512)]

  lemma {:induction false} RectSetsValid()
    ensures forall i :: 0 <= i < |RectSets| ==> RectSets[i].Valid()
  {
  }

  // ---------------------------------------------------------------------------
  // Names

  /** size_limit_to_str: "infinite" without a limit, the decimal number otherwise. */
  function SizeLimitToStr(limit: Option<int>): (s: string)
    ensures limit.None? ==> s == "infinite"
    ensures limit.Some? ==> s == IntToString(limit.value)
  {
    if limit.None? then "infinite" else IntToString(limit.value)
  }

  /** The text of a limit reads back, as strtol reads it, as the limit itself. */
  lemma {:induction false} SizeLimitReadsBack(n: int)
    ensures StrToL(SizeLimitToStr(Some(n))) == Some(n)
  {
    assert IntToString(n) + [] == IntToString(n);
    StrToLToString(n, []);
  }

  /** The image prefix render_image hands to the demo: the name, then the limit or "infinite", each followed by "_". */
  function RenderPrefix(name: string, limit: Option<int>): string {
    var prefix := name + "_";
    if limit.Some? then prefix + (IntToString(limit.value) + "_") else prefix + "infinite_"
  }

  /** create_image_name: "name_limit_dddd.png", the page number padded to four digits. */
  function CreateImageName(rs: RectSet, limit: Option<int>, pageIdx: nat): string {
    rs.name + "_" + SizeLimitToStr(limit) + "_" + ZeroPad(pageIdx, 4) + ".png"
  }

  /** The prefix render_image passes on is exactly what create_image_name puts before the page number. */
  lemma {:induction false} RenderPrefixOfName(rs: RectSet, limit: Option<int>, pageIdx: nat)
    ensures CreateImageName(rs, limit, pageIdx) == RenderPrefix(rs.name, limit) + ZeroPad(pageIdx, 4) + ".png"
  {
    var n, l := rs.name + "_", SizeLimitToStr(limit);
    assert RenderPrefix(rs.name, limit) == n + l + "_";
  }

  /** A number below 10^k has at most k digits. */
  lemma {:induction false} DigitCountBelow(n: nat, k: nat)
    requires k >= 1 && n < Pow10(k)
    ensures DigitCount(n) <= k
  {
    if n >= 10 {
      assert k >= 2;
      assert Pow10(k) == 10 * Pow10(k - 1);
      DigitCountBelow(n / 10, k - 1);
    }
  }

  /** A page number below 10000 has at most four digits. */
  lemma {:induction false} PageDigits(n: nat)
    requires n < 10000
    ensures DigitCount(n) <= 4
  {
    assert Pow10(4) == 10000;
    DigitCountBelow(n, 4);
  }

  /** The middle parts of two texts with the same start and end. */
  lemma {:induction false} SameMiddle(p: string, a: string, b: string, e: string)
    requires p + a + e == p + b + e
    ensures a == b
  {
    assert |a| == |b|;
    assert (p + a + e)[|p|..|p| + |a|] == a;
    assert (p + b + e)[|p|..|p| + |b|] == b;
  }

  /**
   * Below page 10000 an image name is the prefix, exactly four digits
   * spelling the page number, and ".png".
   */
  lemma {:induction false} CreateImageNameForm(rs: RectSet, limit: Option<int>, pageIdx: nat)
    requires pageIdx < 10000
    ensures var s, p := CreateImageName(rs, limit, pageIdx), RenderPrefix(rs.name, limit);
      |s| == |p| + 8 && s[..|p|] == p && s[|p| + 4..] == ".png" &&
      AllDigits(s[|p|..|p| + 4]) && DigitsValue(s[|p|..|p| + 4]) == pageIdx
  {
    RenderPrefixOfName(rs, limit, pageIdx);
    PageDigits(pageIdx);
    ZeroPadValue(pageIdx, 4);
    var p, d := RenderPrefix(rs.name, limit), ZeroPad(pageIdx, 4);
    assert (p + d + ".png")[|p|..|p| + 4] == d;
  }

  /** Different pages of one set and mode get different image names. */
  lemma {:induction false} CreateImageNameInjective(rs: RectSet, limit: Option<int>, i: nat, j: nat)
    requires CreateImageName(rs, limit, i) == CreateImageName(rs, limit, j)
    ensures i == j
  {
    RenderPrefixOfName(rs, limit, i);
    RenderPrefixOfName(rs, limit, j);
    SameMiddle(RenderPrefix(rs.name, limit), ZeroPad(i, 4), ZeroPad(j, 4), ".png");
    ZeroPadInjective(i, j, 4);
  }

  /**
   * The images the demo saves, run with the render options and its default
   * page limit, carry exactly the names the gallery looks for.
   */
  lemma {:induction false} DemoWritesGalleryNames(rs: RectSet, limit: Option<int>, pageIdx: nat)
    requires pageIdx <= Args.Defaults().maxPages
    ensures DemoMain.ImageName(RenderPrefix(rs.name, limit), pageIdx, Args.Defaults().maxPages, ".png") ==
      CreateImageName(rs, limit, pageIdx)
  {
    RenderPrefixOfName(rs, limit, pageIdx);
    assert DigitCount(9999) == 4;
  }

  // ---------------------------------------------------------------------------
  // Running the demo

  const OutDir: string := "html/img"

  /** The data file of a set. */
  function DataPath(name: string): string {
    "html/img/data/" + name + ".txt"
  }

  /** render_image: the arguments the demo is called with for one set and mode. */
  function RenderArgs(exe: string, name: string, limit: Option<int>): seq<string> {
    [exe, "-out-dir", OutDir] +
    (if limit.Some? then ["-max-size", IntToString(limit.value)] else []) +
    ["-image-prefix", RenderPrefix(name, limit), DataPath(name)]
  }

  /** A decimal number is never the help option. */
  lemma {:induction false} NumberIsNotHelp(i: int)
    ensures IntToString(i) != "-help"
  {
    var s := IntToString(i);
    if i < 0 {
      assert s[1] == NatToString(-i)[0];
      assert IsDigit(s[1]) && !IsDigit("-help"[1]);
    } else {
      assert IsDigit(s[0]) && !IsDigit("-help"[0]);
    }
  }

  /** The argument list with a size limit, read with its parts kept apart. */
  lemma {:induction false} ParsedWithLimit(argv: seq<string>, exe: string, dir: string, n: int, prefix: string, data: string)
    requires argv == [exe, "-out-dir", dir, "-max-size", IntToString(n), "-image-prefix", prefix, data]
    requires dir != "-help" && prefix != "-help" && data != "-help"
    ensures Args.ParseArgs(argv, Args.Defaults()) ==
      Args.Parsed(Args.Defaults().(inFile := data, outDir := dir, imagePrefix := prefix, maxPageSize := [n, n]))
  {
    var c0 := Args.Defaults().(inFile := data);
    var c1 := c0.(outDir := dir);
    var c2 := c1.(maxPageSize := [n, n]);
    var c3 := c2.(imagePrefix := prefix);
    NumberIsNotHelp(n);
    assert !Args.HasHelp(argv) by {
      assert forall k :: 1 <= k < |argv| ==> argv[k] != "-help";
    }
    assert Args.ParseOptions(argv, 5, 7, c2) == Args.Parsed(c3) by {
      assert argv[5] == "-image-prefix" && argv[6] == prefix;
    }
    assert Args.ParseOptions(argv, 3, 7, c1) == Args.Parsed(c3) by {
      Args.SingleNumberSetsBoth("-max-size", n, n, c1);
      assert argv[3] == "-max-size" && argv[4] == IntToString(n);
    }
    assert Args.ParseOptions(argv, 1, 7, c0) == Args.Parsed(c3) by {
      assert argv[1] == "-out-dir" && argv[2] == dir;
    }
  }

  /** The argument list without a size limit. */
  lemma {:induction false} ParsedWithoutLimit(argv: seq<string>, exe: string, dir: string, prefix: string, data: string)
    requires argv == [exe, "-out-dir", dir, "-image-prefix", prefix, data]
    requires dir != "-help" && prefix != "-help" && data != "-help"
    ensures Args.ParseArgs(argv, Args.Defaults()) ==
      Args.Parsed(Args.Defaults().(inFile := data, outDir := dir, imagePrefix := prefix))
  {
    var c0 := Args.Defaults().(inFile := data);
    var c1 := c0.(outDir := dir);
    var c3 := c1.(imagePrefix := prefix);
    assert !Args.HasHelp(argv) by {
      assert forall k :: 1 <= k < |argv| ==> argv[k] != "-help";
    }
    assert Args.ParseOptions(argv, 3, 5, c1) == Args.Parsed(c3) by {
      assert argv[3] == "-image-prefix" && argv[4] == prefix;
    }
    assert Args.ParseOptions(argv, 1, 5, c0) == Args.Parsed(c3) by {
      assert argv[1] == "-out-dir" && argv[2] == dir;
    }
  }

  /**
   * The demo reads the render arguments as meant: the data file is its input,
   * the images go to the output directory under the set's prefix, and a size
   * limit becomes the maximum page size in both directions.
   */
  lemma {:induction false} RenderArgsParsed(exe: string, name: string, limit: Option<int>)
    ensures Args.ParseArgs(RenderArgs(exe, name, limit), Args.Defaults()) ==
      Args.Parsed(Args.Defaults().(inFile := DataPath(name), outDir := OutDir,
                                   imagePrefix := RenderPrefix(name, limit),
                                   maxPageSize := if limit.Some? then [limit.value, limit.value]
                                                  else Args.Defaults().maxPageSize))
  {
    var prefix, data := RenderPrefix(name, limit), DataPath(name);
    assert prefix[|prefix| - 1] == '_' && "-help"[4] == 'p';
    assert data[0] == 'h';
    if limit.Some? {
      ParsedWithLimit(RenderArgs(exe, name, limit), exe, OutDir, limit.value, prefix, data);
    } else {
      ParsedWithoutLimit(RenderArgs(exe, name, limit), exe, OutDir, prefix, data);
    }
  }

  // ---------------------------------------------------------------------------
  // PNG header

  /**
   * The eight-byte signature every PNG datastream starts with (section 5.2 of
   * the W3C PNG Specification, Second Edition).
   */
  const PngSignature: seq<byte> := [0x89, 0x50, 0x4E, 0x47, 0x0D, 0x0A, 0x1A, 0x0A]

  /** The type of the header chunk, "IHDR" in ASCII (section 11.2.2). */
  const IhdrType: seq<byte> := [0x49, 0x48, 0x44, 0x52]

  /** The value of four bytes read as a big-endian unsigned 32-bit number. */
  function BigEndian32(b: seq<byte>): (n: nat)
    requires |b| == 4
    ensures n < 0x1_0000_0000
  {
    ((b[0] as nat * 256 + b[1] as nat) * 256 + b[2] as nat) * 256 + b[3] as nat
  }

  /** The four big-endian bytes of an unsigned 32-bit number. */
  function Uint32Bytes(n: nat): (b: seq<byte>)
    requires n < 0x1_0000_0000
    ensures |b| == 4
  {
    [(n / 0x100_0000) as byte, (n / 0x1_0000 % 256) as byte, (n / 0x100 % 256) as byte, (n % 256) as byte]
  }

  /** Writing a number as four bytes and reading them back gives the number. */
  lemma {:induction false} BigEndian32RoundTrip(n: nat)
    requires n < 0x1_0000_0000
    ensures BigEndian32(Uint32Bytes(n)) == n
  {
    var b := Uint32Bytes(n);
    assert b[0] as nat * 256 + b[1] as nat == n / 0x1_0000;
    assert (n / 0x1_0000) * 256 + b[2] as nat == n / 0x100;
  }

  /** The outcome of probing a file for its image size. */
  datatype PngProbe =
    | NotPng             // the first eight bytes are not the signature
    | CorruptPng         // the first chunk is not the header chunk
    | Truncated          // the file ends inside the width and height
    | PngSize(w: nat, h: nat)

  /**
   * get_png_size: check the signature, skip the chunk length, check the
   * chunk type, and read the width and height that follow.
   */
  function GetPngSize(b: seq<byte>): (r: PngProbe)
    ensures r.NotPng? <==> (|b| < 8 || b[..8] != PngSignature)
    ensures r.PngSize? ==> (|b| >= 24 && b[12..16] == IhdrType &&
      r.w == BigEndian32(b[16..20]) && r.h == BigEndian32(b[20..24]))
  {
    if |b| < 8 || b[..8] != PngSignature then NotPng
    else if |b| < 16 || b[12..16] != IhdrType then CorruptPng
    else if |b| < 24 then Truncated
    else PngSize(BigEndian32(b[16..20]), BigEndian32(b[20..24]))
  }

  /** Only the first 24 bytes decide the probe. */
  lemma {:induction false} GetPngSizePrefix(b: seq<byte>, rest: seq<byte>)
    requires |b| >= 24
    ensures GetPngSize(b + rest) == GetPngSize(b)
  {
    assert (b + rest)[..8] == b[..8];
    assert (b + rest)[12..16] == b[12..16];
    assert (b + rest)[16..20] == b[16..20];
    assert (b + rest)[20..24] == b[20..24];
  }

  /** The start of a PNG file: signature, header length 13, header type, width, height. */
  function PngStart(w: nat, h: nat): (b: seq<byte>)
    requires w < 0x1_0000_0000 && h < 0x1_0000_0000
    ensures |b| == 24
  {
    PngSignature + Uint32Bytes(13) + IhdrType + Uint32Bytes(w) + Uint32Bytes(h)
  }

  /** A file that starts like a PNG file of size w * h probes as that size, whatever follows. */
  lemma {:induction false} GetPngSizeOfPng(w: nat, h: nat, rest: seq<byte>)
    requires w < 0x1_0000_0000 && h < 0x1_0000_0000
    ensures GetPngSize(PngStart(w, h) + rest) == PngSize(w, h)
  {
    var b := PngStart(w, h);
    GetPngSizePrefix(b, rest);
    assert b[..8] == PngSignature;
    assert b[12..16] == IhdrType;
    assert b[16..20] == Uint32Bytes(w);
    assert b[20..24] == Uint32Bytes(h);
    BigEndian32RoundTrip(w);
    BigEndian32RoundTrip(h);
  }

  // ---------------------------------------------------------------------------
  // Generating a data file

  /** The first sample that differs from w, if any: what the rejection loop of generate_data settles on. */
  function FirstOther(w: int, samples: seq<int>): (h: Option<int>)
    ensures h.Some? ==> h.value != w && h.value in samples
    ensures h.None? <==> forall k :: 0 <= k < |samples| ==> samples[k] == w
  {
    if samples == [] then None
    else if samples[0] != w then Some(samples[0])
    else
      var h := FirstOther(w, samples[1..]);
      assert forall k :: 1 <= k < |samples| ==> samples[k] == samples[1..][k - 1];
      h
  }

  /** The samples before the first one that differs from w all equal w. */
  lemma {:induction false} FirstOtherIsFirst(w: int, samples: seq<int>)
    requires FirstOther(w, samples).Some?
    ensures exists k ::
      0 <= k < |samples| && samples[k] == FirstOther(w, samples).value && forall j :: 0 <= j < k ==> samples[j] == w
  {
    if samples[0] == w {
      var rest := samples[1..];
      FirstOtherIsFirst(w, rest);
      var k :| 0 <= k < |rest| && rest[k] == FirstOther(w, rest).value && forall j :: 0 <= j < k ==> rest[j] == w;
      assert samples[k + 1] == rest[k];
      assert forall j :: 1 <= j < k + 1 ==> samples[j] == rest[j - 1];
    } else {
      assert samples[0] == FirstOther(w, samples).value;
    }
  }

  /**
   * The rejection loop of generate_data: take sampled heights until one
   * differs from the width. Without such a sample there is no height.
   */
  method SampleHeight(w: int, samples: seq<int>) returns (h: Option<int>)
    ensures h == FirstOther(w, samples)
    ensures h.Some? ==> h.value != w && h.value in samples
    ensures h.Some? <==> exists k :: 0 <= k < |samples| && samples[k] != w
  {
    var i := 0;
    while i < |samples|
      invariant 0 <= i <= |samples|
      invariant forall j :: 0 <= j < i ==> samples[j] == w
      invariant FirstOther(w, samples[i..]) == FirstOther(w, samples)
    {
      if samples[i] != w {
        return Some(samples[i]);
      }
      assert samples[i..][1..] == samples[i + 1..];
      i := i + 1;
    }
    h := None;
  }

  /** The values a line is written with: the samples, or two to their power. */
  function LineSize(rs: RectSet, w: int, h: int): (int, int)
    requires rs.pot ==> w >= 0 && h >= 0
  {
    if rs.pot then (BitmapCanvas.Pow2(w) as int, BitmapCanvas.Pow2(h) as int) else (w, h)
  }

  lemma {:induction false} Pow2Positive(n: nat)
    ensures BitmapCanvas.Pow2(n) >= 1
  {
    if n > 0 {
      Pow2Positive(n - 1);
    }
  }

  /** Two to a larger power is larger. */
  lemma {:induction false} Pow2Grows(a: nat, b: nat)
    requires a < b
    ensures BitmapCanvas.Pow2(a) < BitmapCanvas.Pow2(b)
    decreases b
  {
    if b - 1 > a {
      Pow2Grows(a, b - 1);
    } else {
      Pow2Positive(a);
    }
  }

  /** Two to different powers are different. */
  lemma {:induction false} Pow2Distinct(a: nat, b: nat)
    requires a != b
    ensures BitmapCanvas.Pow2(a) != BitmapCanvas.Pow2(b)
  {
    if a < b {
      Pow2Grows(a, b);
    } else {
      Pow2Grows(b, a);
    }
  }

  predicate InRange(r: Range, v: int) {
    r.lo <= v <= r.hi
  }

  /** The samples of one line lie in the set's ranges. */
  predicate SamplesInRange(rs: RectSet, w: int, hs: seq<int>) {
    InRange(rs.wRange, w) &&
    (rs.hRange.Some? ==> forall j :: 0 <= j < |hs| ==> InRange(rs.hRange.value, hs[j]))
  }

  /**
   * The line generate_data writes for a sampled width w and candidate
   * heights hs: the height is the first candidate differing from w, or w
   * itself for squares; both are raised to powers of two for pot sets.
   */
  predicate LineFrom(rs: RectSet, w: int, hs: seq<int>, size: (int, int))
    requires rs.Valid() && SamplesInRange(rs, w, hs)
  {
    if rs.hRange.None? then size == LineSize(rs, w, w)
    else
      var h := FirstOther(w, hs);
      h.Some? && InRange(rs.hRange.value, h.value) && size == LineSize(rs, w, h.value)
  }

  /**
   * What every written line satisfies: a width that is the sample (or two
   * to it), and a height that is a sample of the height range differing
   * from the width, or the width itself for squares (again raised for pot).
   */
  lemma {:induction false} LineFromShape(rs: RectSet, w: int, hs: seq<int>, size: (int, int))
    requires rs.Valid() && SamplesInRange(rs, w, hs) && LineFrom(rs, w, hs, size)
    ensures exists h: int ::
      (rs.hRange.None? ==> h == w && size.0 == size.1) &&
      (rs.hRange.Some? ==> h != w && InRange(rs.hRange.value, h) && size.0 != size.1) &&
      (!rs.pot ==> size == (w, h)) &&
      (rs.pot ==> w >= 0 && h >= 0 && size == (BitmapCanvas.Pow2(w) as int, BitmapCanvas.Pow2(h) as int))
  {
    var h := if rs.hRange.None? then w else FirstOther(w, hs).value;
    if rs.pot && h != w {
      Pow2Distinct(w, h);
    }
  }

  /**
   * generate_data for one rs: count lines, each from a sampled width and
   * either the first candidate height that differs from it or the width
   * itself for squares. Each line "WxH" holds the sizes, as powers of two
   * when the set asks for them.
   */
  method GenerateData(rs: RectSet, widths: seq<int>, heights: seq<seq<int>>)
    returns (sizes: Option<seq<(int, int)>>)
    requires rs.Valid() && |widths| == |heights| == rs.count
    requires forall i :: 0 <= i < rs.count ==> SamplesInRange(rs, widths[i], heights[i])
    ensures sizes.Some? ==> |sizes.value| == rs.count
    ensures sizes.Some? ==> forall i :: 0 <= i < rs.count ==> LineFrom(rs, widths[i], heights[i], sizes.value[i])
    ensures sizes.Some? && rs.hRange.None? ==> forall i :: 0 <= i < rs.count ==> sizes.value[i].0 == sizes.value[i].1
    ensures sizes.Some? && rs.hRange.Some? ==> forall i :: 0 <= i < rs.count ==> sizes.value[i].0 != sizes.value[i].1
    ensures sizes.None? <==> (rs.hRange.Some? && exists i :: 0 <= i < rs.count && FirstOther(widths[i], heights[i]).None?)
  {
    var out: seq<(int, int)> := [];
    var i := 0;
    while i < rs.count
      invariant 0 <= i <= rs.count && |out| == i
      invariant forall k :: 0 <= k < i ==> LineFrom(rs, widths[k], heights[k], out[k])
      invariant forall k :: 0 <= k < i ==> (out[k].0 == out[k].1 <==> rs.hRange.None?)
      invariant rs.hRange.Some? ==> forall k :: 0 <= k < i ==> FirstOther(widths[k], heights[k]).Some?
    {
      var w := widths[i];
      var h := w;
      if rs.hRange.Some? {
        var sampled := SampleHeight(w, heights[i]);
        if sampled.None? {
          return None;
        }
        h := sampled.value;
        assert InRange(rs.hRange.value, h);
      }
      if rs.pot {
        assert w >= 0 && h >= 0;
        if h != w {
          Pow2Distinct(w, h);
        }
      }
      out := out + [LineSize(rs, w, h)];
      i := i + 1;
    }
    sizes := Some(out);
  }

  // ---------------------------------------------------------------------------
  // Titles

  /** A range as the gallery shows it: "[lo..hi]", or "2<sup>[lo..hi]</sup>" for exponents. */
  function RangeText(r: Range, pot: bool): string {
    var plain := "[" + IntToString(r.lo) + ".." + IntToString(r.hi) + "]";
    if pot then "2<sup>" + plain + "</sup>" else plain
  }

  /** The title of a rs: the count, the title, and one range for squares or two joined by " × ". */
  function Title(rs: RectSet): (t: string)
    ensures |t| > |NatToString(rs.count)| + 1 + |rs.title|
    ensures t[..|NatToString(rs.count)|] == NatToString(rs.count)
    ensures t[|NatToString(rs.count)|] == ' '
  {
    NatToString(rs.count) + " " + rs.title + " " + RangesText(rs)
  }

  /** The ranges part of a title: one range for squares, two joined by " × " otherwise. */
  function RangesText(rs: RectSet): string {
    if rs.hRange.None? then RangeText(rs.wRange, rs.pot)
    else RangeText(rs.wRange, rs.pot) + " × " + RangeText(rs.hRange.value, rs.pot)
  }

  /** The exponent range of the power-of-two sets as the gallery shows it. */
  const PotRange: string := "2<sup>[2..7]</sup>"

  lemma {:induction false} RangeTexts()
    ensures RangeText(Range(6, 100), false) == "[6..100]"
    ensures RangeText(Range(2, 7), true) == "2<sup>[2..7]</sup>"
  {
    assert IntToString(6) == "6" && IntToString(2) == "2" && IntToString(7) == "7";
    Hundreds();
  }

  lemma {:induction false} Hundreds()
    ensures NatToString(500) == "500" && NatToString(100) == "100"
  {
    assert NatToString(50) == "50" && NatToString(10) == "10";
  }

  /** The text that closes a range: "</sup>" for exponents, nothing otherwise. */
  function RangeClose(pot: bool): string {
    if pot then "</sup>" else ""
  }

  /**
   * A range text reads back: after its opening ("[" or "2<sup>[") the low
   * bound scans as an integer, ".." follows, then the high bound scans,
   * and "]" and the closing text are all that is left.
   */
  lemma {:induction false} RangeTextReadsBack(r: Range, pot: bool)
    ensures var s, o := RangeText(r, pot), if pot then 7 else 1;
      |s| > o && s[..o] == (if pot then "2<sup>[" else "[") &&
      exists rest: string :: ScanInt(s[o..]) == Some(Scanned(r.lo, ".." + rest)) &&
        ScanInt(rest) == Some(Scanned(r.hi, "]" + RangeClose(pot)))
  {
    var open := if pot then "2<sup>[" else "[";
    var rest := IntToString(r.hi) + ("]" + RangeClose(pot));
    var tail := IntToString(r.lo) + (".." + rest);
    RangeTextParts(r, pot);
    SplitAt(open, tail);
    ScanIntToString(r.lo, ".." + rest);
    ScanIntToString(r.hi, "]" + RangeClose(pot));
  }

  /** A range text regrouped as its opening, then everything from the low bound on. */
  lemma {:induction false} RangeTextParts(r: Range, pot: bool)
    ensures RangeText(r, pot) == (if pot then "2<sup>[" else "[") +
      (IntToString(r.lo) + (".." + (IntToString(r.hi) + ("]" + RangeClose(pot)))))
  {
  }

  lemma {:induction false} SplitAt(a: string, b: string)
    ensures (a + b)[..|a|] == a && (a + b)[|a|..] == b
  {
  }

  /**
   * Every title reads back: its leading digits are the count, then a space,
   * the set's title, a space, and the ranges, whose bounds read back by
   * RangeTextReadsBack.
   */
  lemma {:induction false} TitleReadsBack(rs: RectSet)
    ensures var t, k := Title(rs), DigitCount(rs.count);
      |t| > k + 1 + |rs.title| && AllDigits(t[..k]) && DigitsValue(t[..k]) == rs.count &&
      t[k] == ' ' && t[k + 1..k + 1 + |rs.title|] == rs.title &&
      t[k + 1 + |rs.title|..] == " " + RangesText(rs)
  {
    NatToStringValue(rs.count);
    SplitTitle(NatToString(rs.count), rs.title, RangesText(rs));
  }

  /** The parts of a title, taken apart again. */
  lemma {:induction false} SplitTitle(c: string, title: string, rest: string)
    ensures var t := c + " " + title + " " + rest;
      t[..|c|] == c && t[|c|] == ' ' && t[|c| + 1..|c| + 1 + |title|] == title &&
      t[|c| + 1 + |title|..] == " " + rest
  {
  }

  /** The titles of the plain and the power-of-two sets, as the gallery shows them. */
  lemma {:induction false} TitleRects()
    ensures Title(RectSets[0]) == "500" + " " + "rectangles" + " " + "[6..100]" + " × " + "[6..100]"
  {
    var r := RangeText(Range(6, 100), false);
    assert r == "[6..100]" by {
      RangeTexts();
    }
    assert NatToString(500) == "500" by {
      Hundreds();
    }
  }

  lemma {:induction false} ThirtyRanges()
    ensures RangeText(Range(6, 30), false) == "[6..30]"
    ensures RangeText(Range(30, 100), false) == "[30..100]"
  {
    assert IntToString(6) == "6" && NatToString(3) == "3" && NatToString(30) == "30";
    Hundreds();
  }

  lemma {:induction false} TitleTall()
    ensures Title(RectSets[1]) == "500" + " " + "tall rectangles" + " " + "[6..30]" + " × " + "[30..100]"
  {
    ThirtyRanges();
    assert NatToString(500) == "500" by {
      Hundreds();
    }
  }

  lemma {:induction false} TitleWide()
    ensures Title(RectSets[2]) == "500" + " " + "wide rectangles" + " " + "[30..100]" + " × " + "[6..30]"
  {
    ThirtyRanges();
    assert NatToString(500) == "500" by {
      Hundreds();
    }
  }

  lemma {:induction false} TitlePotRects()
    ensures Title(RectSets[3]) == "500" + " " + "power of two rectangles" + " " + PotRange + " × " + PotRange
  {
    var r := RangeText(Range(2, 7), true);
    assert r == PotRange by {
      RangeTexts();
    }
    assert NatToString(500) == "500" by {
      Hundreds();
    }
  }

  lemma {:induction false} TitleSquares()
    ensures Title(RectSets[4]) == "500" + " " + "squares" + " " + "[6..100]"
  {
    var r := RangeText(Range(6, 100), false);
    assert r == "[6..100]" by {
      RangeTexts();
    }
    assert NatToString(500) == "500" by {
      Hundreds();
    }
  }

  lemma {:induction false} TitlePotSquares()
    ensures Title(RectSets[5]) == "500" + " " + "power of two squares" + " " + PotRange
  {
    var r := RangeText(Range(2, 7), true);
    assert r == PotRange by {
      RangeTexts();
    }
    assert NatToString(500) == "500" by {
      Hundreds();
    }
  }

  // ---------------------------------------------------------------------------
  // Discovering the pages of a run

  /** The largest side of any of the sizes, 0 when there are none. */
  function MaxSide(sizes: seq<(nat, nat)>): (m: nat)
    ensures forall i :: 0 <= i < |sizes| ==> sizes[i].0 <= m && sizes[i].1 <= m
  {
    if |sizes| == 0 then 0
    else
      var last := sizes[|sizes| - 1];
      RectPack.Max(MaxSide(sizes[..|sizes| - 1]), RectPack.Max(last.0, last.1))
  }

  /** The largest side is a side of one of the sizes. */
  lemma {:induction false} MaxSideAttained(sizes: seq<(nat, nat)>)
    requires |sizes| > 0
    ensures exists i :: 0 <= i < |sizes| && (MaxSide(sizes) == sizes[i].0 || MaxSide(sizes) == sizes[i].1)
  {
    var n := |sizes| - 1;
    if n > 0 && MaxSide(sizes[..n]) >= RectPack.Max(sizes[n].0, sizes[n].1) {
      MaxSideAttained(sizes[..n]);
      var i :| 0 <= i < n && (MaxSide(sizes[..n]) == sizes[..n][i].0 || MaxSide(sizes[..n]) == sizes[..n][i].1);
      assert sizes[..n][i] == sizes[i];
    } else {
      assert MaxSide(sizes) == sizes[n].0 || MaxSide(sizes) == sizes[n].1;
    }
  }

  /** Adding a size: the largest side so far against that size's sides. */
  lemma {:induction false} MaxSideAppend(sizes: seq<(nat, nat)>, size: (nat, nat))
    ensures MaxSide(sizes + [size]) == RectPack.Max(MaxSide(sizes), RectPack.Max(size.0, size.1))
  {
    assert (sizes + [size])[..|sizes|] == sizes;
  }

  /** The pages found for a set and mode: their paths, their sizes, and the largest side. */
  datatype Pages = Pages(paths: seq<string>, sizes: seq<(nat, nat)>, maxSide: nat)

  /** Image j of a set and mode is in the directory, under that path, and probes as that size. */
  predicate PageFound(rs: RectSet, limit: Option<int>, files: map<string, seq<byte>>, j: nat,
                      path: string, size: (nat, nat))
  {
    var name := CreateImageName(rs, limit, j);
    name in files && path == "img/" + name && GetPngSize(files[name]) == PngSize(size.0, size.1)
  }

  /** Images 0 .. |paths| - 1 were all found, in order, under those paths and with those sizes. */
  predicate Discovered(rs: RectSet, limit: Option<int>, files: map<string, seq<byte>>,
                       paths: seq<string>, sizes: seq<(nat, nat)>)
  {
    |paths| == |sizes| &&
    forall j :: 0 <= j < |paths| ==> PageFound(rs, limit, files, j, paths[j], sizes[j])
  }

  /** Image j is in the directory and probes as a PNG size. */
  predicate Probed(rs: RectSet, limit: Option<int>, files: map<string, seq<byte>>, j: nat) {
    CreateImageName(rs, limit, j) in files && GetPngSize(files[CreateImageName(rs, limit, j)]).PngSize?
  }

  lemma {:induction false} DiscoveredAppend(rs: RectSet, limit: Option<int>, files: map<string, seq<byte>>,
                         paths: seq<string>, sizes: seq<(nat, nat)>, path: string, size: (nat, nat))
    requires Discovered(rs, limit, files, paths, sizes)
    requires PageFound(rs, limit, files, |paths|, path, size)
    ensures Discovered(rs, limit, files, paths + [path], sizes + [size])
  {
    var paths', sizes' := paths + [path], sizes + [size];
    forall j | 0 <= j < |paths'|
      ensures PageFound(rs, limit, files, j, paths'[j], sizes'[j])
    {
      if j < |paths| {
        assert paths'[j] == paths[j] && sizes'[j] == sizes[j];
      }
    }
  }

  lemma {:induction false} DiscoveredProbed(rs: RectSet, limit: Option<int>, files: map<string, seq<byte>>,
                         paths: seq<string>, sizes: seq<(nat, nat)>)
    requires Discovered(rs, limit, files, paths, sizes)
    ensures forall j :: 0 <= j < |paths| ==> Probed(rs, limit, files, j)
  {
    forall j | 0 <= j < |paths|
      ensures Probed(rs, limit, files, j)
    {
      assert PageFound(rs, limit, files, j, paths[j], sizes[j]);
    }
  }

  /**
   * The page loop of write_html: look for images 0, 1, 2, ... in the image
   * directory, holding the file contents by name, and stop at the first
   * missing one or at the page limit. A found image that does not probe as
   * PNG stops the script, with its page number.
   */
  method DiscoverPages(rs: RectSet, limit: Option<int>, files: map<string, seq<byte>>)
    returns (r: Result<Pages, (nat, PngProbe)>)
    ensures r.Ok? ==> |r.value.paths| <= MaxPages && Discovered(rs, limit, files, r.value.paths, r.value.sizes)
    ensures r.Ok? ==> |r.value.paths| == MaxPages || CreateImageName(rs, limit, |r.value.paths|) !in files
    ensures r.Ok? ==> r.value.maxSide == MaxSide(r.value.sizes)
    ensures r.Err? ==> var (i, probe) := r.error;
      i < MaxPages && CreateImageName(rs, limit, i) in files && !probe.PngSize? &&
      GetPngSize(files[CreateImageName(rs, limit, i)]) == probe &&
      forall j :: 0 <= j < i ==> Probed(rs, limit, files, j)
  {
    var paths: seq<string> := [];
    var sizes: seq<(nat, nat)> := [];
    var maxSide: nat := 0;
    var i := 0;
    while i < MaxPages
      invariant 0 <= i <= MaxPages && |paths| == i
      invariant Discovered(rs, limit, files, paths, sizes)
      invariant maxSide == MaxSide(sizes)
    {
      var name := CreateImageName(rs, limit, i);
      if name !in files {
        break;
      }
      var probe := GetPngSize(files[name]);
      if !probe.PngSize? {
        DiscoveredProbed(rs, limit, files, paths, sizes);
        return Err((i, probe));
      }
      var size := (probe.w, probe.h);
      DiscoveredAppend(rs, limit, files, paths, sizes, "img/" + name, size);
      MaxSideAppend(sizes, size);
      paths := paths + ["img/" + name];
      sizes := sizes + [size];
      maxSide := RectPack.Max(maxSide, RectPack.Max(probe.w, probe.h));
      i := i + 1;
    }
    r := Ok(Pages(paths, sizes, maxSide));
  }
}
