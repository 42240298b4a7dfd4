# dp_rect_pack in Dafny

This project models dp_rect_pack, a rectangle packing library, and proves
properties of the model. Its core is `RectPacker` from `dp_rect_pack.h`. A
packer keeps a list of pages. Each page is a binary tree of free space, kept
in a vector of nodes with a movable root. A rectangle goes into the first
page that takes it:

- into a free leaf found by a depth-first search, which is then split;
- or else by growing the page's root down or right;
- or else onto a new page.

The model also covers the pieces around the packer:

- the demo program: its options, its input lines, the packing loop, the
  drawing of each page into a palette bitmap, and the page image names;
- the pure parts of the gallery script: image names, PNG header probing,
  the dataset lines, titles and page discovery.

Files, one module each:

- `rect_pack.dfy` (`RectPack`): the packer.
  - `Page` and `RectPacker` are classes whose methods update `nodes`,
    `rootIdx` and `pages` in place.
  - Each method is proved against a functional specification: the recursive
    search `Dfs`, the splits `Subdivided`, `GrownDown` and `GrownRight`, and
    the whole page insert `Place`.
- `rect_pack_scenarios.dfy` (`RectPackScenarios`): the expected values of
  the library's own test program, proved about the model.
- `bitmap_canvas.dfy` (`BitmapCanvas`): the bitmap canvas. It holds the
  colour index arithmetic and the in-place fill and stroke loops over a
  `w * h` byte array.
- `palette.dfy` (`Palette`): the colour clamping and the PNG palette.
- `args.dfy` (`Args`): the demo's option parser.
  - `Options` is a class whose fields are the parser's global variables.
  - Its `Parse` method is proved equal to the functional `ParseArgs`.
- `demo_main.dfy` (`DemoMain`): the demo's `main`.
  - `numDigits` and the line loader.
  - The two sort orders.
  - Packing every item, and the page limit.
  - Drawing each page's run of items.
  - The image names.
- `gen_gallery.dfy` (`Gallery`): the gallery script's pure logic and its two
  loops.
- `decimal.dfy` (`Decimal`), `cscan.dfy` (`CScan`): the C library's behaviour
  that the code relies on.
  - Decimal text and `%0*zu` zero padding.
  - `sscanf` with `%d` conversions, and `strtol`.
- `rect.dfy`, `wrappers.dfy`: the `Rect` record, and the `Option` and
  `Result` types.

Geometry is unbounded `int`/`nat`. Sizes in the tree are `nat`, because the
library keeps them non-negative once the `Context` constructor has clamped
its inputs.

## Model

| member | source | states |
|---|---|---|
| RectPack.ClampSide | dp_rect_pack.h:645-652 | One padding side. A negative side becomes 0 and leaves all of the remaining maximum. A side up to the remaining maximum is kept and subtracted. A larger side is cut to the remaining maximum, which then becomes 0. Kept plus rest always equals the maximum given. |
| RectPack.NewContext | dp_rect_pack.h:626-680 | The clamped context. Maximum size and spacing substitute 0 for negative values. The sides are clamped in the order top, bottom, left, right, each into what the earlier sides left. Clamped maximum plus kept padding equals the non-negative original maximum, on each axis. |
| RectPack.Node.IsEmpty | dp_rect_pack.h:301-304 | A free leaf is marked by both child indices being 1; `SubdividedInv` states that a split node is never free again. |
| RectPack.Dfs | dp_rect_pack.h:418-467 | findNode's search as a recursive function: the first fitting free leaf in pre-order, right child before bottom child, only below nodes the rectangle fits; `DfsFound` and `DfsComplete` state it. |
| RectPack.DfsFound | dp_rect_pack.h:427-466 | A leaf the search returns is a free leaf that the rectangle fits. Its position lies inside the area of the node where the search started. |
| RectPack.NoFreeFitBelow | dp_rect_pack.h:430 | No free leaf the rectangle fits lies below a node it does not fit, because children are never larger than their parent. Below such a node the search can give up. |
| RectPack.DfsComplete | dp_rect_pack.h:427-466 | The search finds a leaf exactly when some free leaf reachable from the node fits the rectangle. |
| RectPack.Subdivided | dp_rect_pack.h:485-514 | Splitting a node adds at most two nodes. |
| RectPack.SubdividedChildren | dp_rect_pack.h:493-513 | The split node stops being a free leaf and keeps its size. A right child (rightW - spacing.x by rect.h) is appended exactly when rightW > spacing.x. A bottom child (node width by bottomH - spacing.y) is appended exactly when bottomH > spacing.y. The node count grows by exactly the children made. |
| RectPack.SubdividedInv | dp_rect_pack.h:485-514 | Splitting keeps the page invariant (well-formed tree, root fits the maximum size), leaves the node non-free and does not change the root's size. |
| RectPack.GrownDown | dp_rect_pack.h:556-588 | growDown's new nodes; `GrownDownInv` states them. |
| RectPack.GrownRight | dp_rect_pack.h:591-623 | growRight's new nodes; `GrownRightInv` states them. |
| RectPack.CanGrowDown | dp_rect_pack.h:529-530 | tryGrow's canGrowDown: room below the root for the rectangle and the spacing. |
| RectPack.MustGrowDown | dp_rect_pack.h:531-535 | tryGrow's mustGrowDown: it can grow down, the spacing fits across, and the grown page is no taller than wide. |
| RectPack.CanGrowRight | dp_rect_pack.h:543-544 | tryGrow's canGrowRight: room to the right of the root for the rectangle and the spacing. |
| RectPack.GrownDownInv | dp_rect_pack.h:556-588 | Growing down keeps the page invariant. The new root, at the old node count, is max(root.w, rect.w) wide and root.h + rect.h + spacing.y high. |
| RectPack.GrownRightInv | dp_rect_pack.h:591-623 | Growing right keeps the page invariant. The new root is root.w + rect.w + spacing.x wide and max(root.h, rect.h) high. |
| RectPack.Place | dp_rect_pack.h:377-400 | Page::insert as a function: seed an empty page at the padded origin, else the found leaf's split, else grow down or right, else none; `PlaceKeepsInv` and `FirstInsert` state it. |
| RectPack.PlaceKeepsInv | dp_rect_pack.h:377-400 | A successful page insert keeps the page invariant. The new root contains the old one, so the root never grows past the maximum size and never shrinks. The placed rectangle lies within the padded root area. |
| RectPack.FirstInsert | dp_rect_pack.h:386-397 | On an empty page the root becomes the rectangle, with no children, placed at (padding.left, padding.top). |
| RectPack.Page.constructor | dp_rect_pack.h:275-278 | A new page is one free node of size 0 with root 0. |
| RectPack.Page.GetSize | dp_rect_pack.h:280-286 | A page that never took a rectangle reports the padding sums (left + right, top + bottom). Any other page is strictly larger on both axes. |
| RectPack.Page.FindNode | dp_rect_pack.h:417-467 | The `while (true)` loop with its explicit stack returns exactly what the recursive search `Dfs` returns from the root at (padding.left, padding.top): the leaf found and its position, or failure. |
| RectPack.Page.SubdivideNode | dp_rect_pack.h:484-514 | The node list becomes the split described by `Subdivided`. The root is not moved. |
| RectPack.Page.TryInsert | dp_rect_pack.h:403-414 | Succeeds exactly when the search finds a free leaf. On success that leaf is split and the position is the leaf's; on failure the page is unchanged. |
| RectPack.Page.GrowDown | dp_rect_pack.h:556-588 | The node list becomes `GrownDown` of the old one, and the root moves to the old node count. |
| RectPack.Page.GrowRight | dp_rect_pack.h:591-623 | The node list becomes `GrownRight` of the old one, and the root moves to the old node count. |
| RectPack.Page.TryGrow | dp_rect_pack.h:517-553 | If growing down is required, it grows down and places at (left, top + root.h + spacing.y). Otherwise, if growing right is possible, it grows right and places at (left + root.w + spacing.x, top). Otherwise it fails with the page unchanged. |
| RectPack.Page.Insert | dp_rect_pack.h:377-400 | The new page state and position are exactly `Place` of the old state. Failure leaves the page unchanged. On success the page is seeded, its root grows only, and the rectangle lies inside the padded root area. |
| RectPack.RectPacker.constructor | dp_rect_pack.h:199-205 | The context is clamped from the arguments and there is exactly one page, which is empty. |
| RectPack.RectPacker.NumPages | dp_rect_pack.h:207-215 | There is always at least one page. |
| RectPack.RectPacker.PageSize | dp_rect_pack.h:226-231 | An empty page has the size of its padding; a seeded page is strictly larger. |
| RectPack.RectPacker.InsertIntoPages | dp_rect_pack.h:360-365 | Pages are tried in index order and the first that accepts takes the rectangle at its `Place` position; all pages before it refuse. If none accepts, no page changes. Other pages keep their trees, and no page shrinks. |
| RectPack.RectPacker.InsertIntoPage | dp_rect_pack.h:361 | One page's insert: success exactly when `Place` succeeds on its old state, placed inside the page's size less padding. Every other page is unchanged. |
| RectPack.RectPacker.InsertIntoNewPage | dp_rect_pack.h:367-371 | When no page accepts, a fresh page is appended holding just the rectangle, placed at the padded origin. |
| RectPack.RectPacker.Insert | dp_rect_pack.h:337-374 | Returns negativeSize, then zeroSize, then rectTooBig, checked in that order, and those leave every page unchanged. ok exactly when 0 < width <= maxSize.w and 0 < height <= maxSize.h. The first page that accepts wins; otherwise a new page is appended and pageIndex is the last index. pageIndex < page count. The rectangle lies inside the page after padding. No page shrinks. |
| RectPackScenarios.NormalConstruction | tests/main.cpp:24-35 | One page, sized by the padding (7 by 3). |
| RectPackScenarios.NegativeMaxSize | tests/main.cpp:37-55 | A negative maximum is clamped to 0. A 1x1 insert is rectTooBig, leaving one page of size 0. |
| RectPackScenarios.NegativePadding | tests/main.cpp:57-87 | Negative padding is clamped to 0. 10x15 goes to (0,0) on page 0. 1x1 then opens page 1 at (0,0), of size 1x1. |
| RectPackScenarios.NegativeSpacing | tests/main.cpp:89-119 | Negative spacing is clamped to 0. Two 5x15 rectangles land at (0,0) and (5,0) of a 10x15 page. |
| RectPackScenarios.PaddingLimited | tests/main.cpp:121-139 | Padding larger than the page uses it all up. 1x1 is rectTooBig, and the page stays 10x15. |
| RectPackScenarios.Errors | tests/main.cpp:145-171 | The test's nine error inserts in its order, (-1,1), (1,-1), (-1,-1), (0,1), (1,0), (0,0), (4,1), (1,13), (4,13), give three negativeSize, three zeroSize and three rectTooBig; the packer keeps one page at its padding size. |
| RectPackScenarios.GrowDownSecond | tests/main.cpp:196-204 | After 20x10, inserting 30x9 grows the root down. The new root is node 1, spanning 30 by 21, and the rectangle goes to (3, 13). |
| RectPackScenarios.GrowDownThird | tests/main.cpp:206-215 | 9x10 goes into the free leaf beside the first rectangle, at (24, 1). |
| RectPackScenarios.GrowDownFourth | tests/main.cpp:217-225 | The full page refuses 1x1. |
| RectPackScenarios.GrowDownScenario | tests/main.cpp:173-226 | The four inserts give the test's positions and page indices, and page sizes 37x24 and 8x4. |
| RectPackScenarios.SecondRejected | tests/main.cpp:388-396 | A 7x15 page of a 10x15 maximum cannot take 4x15. |
| RectPackScenarios.ThirdAccepted | tests/main.cpp:398-406 | The same page takes 3x15 at (7, 0) by growing right to 10x15. |
| RectPackScenarios.ExistingPageScenario | tests/main.cpp:369-407 | 7x15 goes to page 0; 4x15 opens page 1; 3x15 returns to page 0 at (7,0). There are two pages, of sizes 10x15 and 4x15. |
| BitmapCanvas.CRem | demo/bitmap_canvas.cpp:18 | C's `%`, which truncates toward zero: for a >= 0 it is the Euclidean remainder; for a < 0 it is zero or negative. |
| BitmapCanvas.FillColorIdx | demo/bitmap_canvas.cpp:16-19 | For a non-negative index the fill colour is 1 + i mod numColors, within [1, numColors]. |
| BitmapCanvas.StrokeColorIdx | demo/bitmap_canvas.cpp:12-25 | The stroke colour is the fill colour plus numColors, within [numColors + 1, 2 * numColors], below numPngColors. |
| BitmapCanvas.ColorIndicesPickPalette | demo/bitmap_canvas.cpp:106-122 | The fill index selects the rectangle's base colour in the written palette, and the stroke index selects that colour darkened by 0x33. |
| BitmapCanvas.PaletteBitDepth | demo/bitmap_canvas.cpp:60-70 | The depth is 1, 2, 4 or 8. It is the smallest of these whose 2^d covers the palette, and 8 when none of the smaller ones do. |
| BitmapCanvas.DemoBitDepth | demo/bitmap_canvas.cpp:98-100 | The 13-colour palette is written with 4 bits per pixel. |
| BitmapCanvas.Painted | demo/bitmap_canvas.cpp:38-51 | One pixel after `drawRect` with the corrected stroke: stroke on the border, fill inside, unchanged outside; `InteriorIsFilled` and `EmptyRectPaintsNothing` state it. |
| BitmapCanvas.InteriorIsFilled | demo/bitmap_canvas.cpp:49-50 | A pixel strictly inside a drawn rectangle gets the fill colour. |
| BitmapCanvas.EmptyRectPaintsNothing | demo/bitmap_canvas.cpp:46-47 | A rectangle without area paints nothing. |
| BitmapCanvas.Canvas.constructor | demo/bitmap_canvas.cpp:28-35 | A canvas for w, h > 0 holds exactly w * h zero bytes. |
| BitmapCanvas.Canvas.Memset | demo/bitmap_canvas.cpp:140 | Exactly the n bytes from start take the colour; every other byte is unchanged. |
| BitmapCanvas.Canvas.FillRect | demo/bitmap_canvas.cpp:136-143 | Exactly the pixels of the rectangle take the colour; every other pixel is unchanged. |
| BitmapCanvas.Canvas.StrokeRect | demo/bitmap_canvas.cpp:146-159 | Exactly the border pixels of the rectangle (top row, bottom row, left and right columns) take the colour; every other pixel is unchanged, including for a one-row rectangle. |
| BitmapCanvas.Canvas.DrawRect | demo/bitmap_canvas.cpp:38-51 | With the corrected stroke (see ## Findings): inside the canvas, every pixel on the rectangle's border gets the stroke colour and every other pixel inside gets the fill colour. Pixels outside are unchanged, and so is everything for a rectangle without area. |
| BitmapCanvas.StrokeWritesAsWritten | demo/bitmap_canvas.cpp:146-159 | The buffer positions strokeRect writes as written: the top row, two side pixels for each of rect.h - 2 rows, then one more full row; the three lemmas below state it. |
| BitmapCanvas.StrokeAsWrittenOneRow | demo/bitmap_canvas.cpp:146-159 | As written, the last byte stroked for a one-row rectangle is in the row below it, outside the rectangle. It is past the end of the buffer when the rectangle is on the canvas's last row. |
| BitmapCanvas.StrokeAsWrittenOverruns | demo/bitmap_canvas.cpp:146-159 | As written, stroking a 4x1 rectangle on a 4x1 canvas writes positions 0..7 of a 4-byte buffer. |
| BitmapCanvas.StrokeAsWrittenOnBorder | demo/bitmap_canvas.cpp:146-159 | As written, for a height of at least 2 every byte stroked is a border pixel. |
| Palette.AdjustComponent | demo/palette.cpp:20-28 | c + a clamped to [0, 255]: 0 below, 255 above, c + a in between. |
| Palette.AdjustComponentMonotone | demo/palette.cpp:20-28 | Adding more never gives a smaller component. |
| Palette.AdjustBrightness | demo/palette.cpp:31-38 | Each of r, g, b is clamped independently into a new colour. |
| Palette.AdjustBrightnessDarkens | demo/palette.cpp:31-38 | A non-positive adjustment never brightens a channel, and 0 is the identity. |
| Palette.PngPalette | demo/bitmap_canvas.cpp:106-121 | The written palette has 1 + 2 * numColors entries. |
| Palette.DarkenedColors | demo/bitmap_canvas.cpp:111-120 | Each stroke colour is its base colour with 0xFF channels turned to 0xCC and 0x77 channels to 0x44. |
| Args.Defaults | demo/args.cpp:13-20 | The default configuration: maximum page size INT_MAX in both dimensions, maxPages 9999, prefix "page_", and zero padding and spacing. maxPages is positive and the arrays have their shapes. |
| Args.BothOrOne | demo/args.cpp:116-124 | One number read sets both components; two numbers set each. |
| Args.ScanPair | demo/args.cpp:116-121 | A successful `%d:%d` option reads two values. |
| Args.ScanPadding | demo/args.cpp:157-168 | A successful padding reads four values. |
| Args.ApplyOption | demo/args.cpp:86-188 | Applying one option with its value keeps the shapes, leaves the input file, and keeps maxPages positive. An error names that option and is an unknown value, an invalid value or a non-positive count. |
| Args.Options.constructor | demo/args.cpp:13-20 | The global variables start at the defaults. |
| Args.Options.ReadPair | demo/args.cpp:116-124 | The two-element array holds `ScanPair`'s values, or the error is reported. |
| Args.Options.ReadPadding | demo/args.cpp:157-168 | The padding array holds `ScanPadding`'s values, or the error is reported. |
| Args.Options.FillPadding | demo/args.cpp:166-168 | The loop copies padding[0] into the other three sides. |
| Args.Options.Apply | demo/args.cpp:86-188 | The variables change exactly as `ApplyOption` says, or its error is returned. The input file is untouched. |
| Args.Options.Parse | demo/args.cpp:66-196 | The outcome of the scan over argv is `ParseArgs` of the old configuration. On success the variables hold the parsed configuration. |
| Args.ParseOptionsEnds | demo/args.cpp:85-195 | Once the help and usage checks have passed, the option scan ends in a failure or in a parsed configuration. |
| Args.ApplyImageFormat | demo/args.cpp:93-100 | png or svg, any other value an unknown value; `ImageFormatValues` states it. |
| Args.ApplyMaxPages | demo/args.cpp:132-142 | strtol's value when it reads one and it is positive; `MaxPagesPositive` states it. |
| Args.ParseOptions | demo/args.cpp:85-195 | The option scan with its index i stepping over each option and its value; `ParseOptionsEnds`, `ParseOptionsKeeps` and `ParseOptionsErrors` state it. |
| Args.ParseArgs | demo/args.cpp:66-196 | help first, then the usage failure, then the input file and the option scan; `HelpFirst`, `UsageWithoutInput` and `InFileIsLast` state it. |
| Args.HelpFirst | demo/args.cpp:68-72 | The outcome is help exactly when some argument after the program name is "-help", before any other check. |
| Args.UsageWithoutInput | demo/args.cpp:74-77 | Without "-help", the outcome is the usage failure exactly when no user argument is given. |
| Args.ParseOptionsKeeps | demo/args.cpp:79-189 | The option scan keeps the shapes and the input file, and keeps maxPages positive. |
| Args.InFileIsLast | demo/args.cpp:74-79 | A parsed configuration has the last argument as its input file, and at least one user argument. |
| Args.ParseOptionsErrors | demo/args.cpp:85-195 | A missing value is reported for the option just before the input file. An unknown option is one of no known name. |
| Args.SingleNumberSetsBoth | demo/args.cpp:109-124 | For -max-size and -spacing, one number n sets [n, n]; "n:m" sets [n, m]. |
| Args.PaddingOneOrFour | demo/args.cpp:157-168 | -padding is accepted exactly when sscanf reads 1 or 4 numbers. With one number all four sides are equal. |
| Args.PaddingValues | demo/args.cpp:157-168 | "t:b:l:r" sets the four sides in that order; a single "t" sets all four to t. |
| Args.PaddingTwoRefused | demo/args.cpp:161-164 | Two padding numbers are an invalid value. |
| Args.MaxPagesPositive | demo/args.cpp:132-142 | -max-pages is accepted exactly when strtol reads a number and it is > 0. No digits gives an invalid value, and a number <= 0 gives "must be > 0". |
| Args.ImageFormatValues | demo/args.cpp:93-100 | -image-format accepts exactly "png" and "svg". |
| Args.MissingValueReported | demo/args.cpp:84-91 | "-padding in.txt" reports that -padding expects an argument. A lone "-max-pages" is the input file. |
| Args.ExampleMaxSize | demo/args.cpp:44-47 | "-max-size 512" is 512:512. |
| Args.ExampleSpacing | demo/args.cpp:176-184 | "-spacing 1:2" sets spacing [1, 2]. |
| Args.ExampleCommandLine | demo/args.cpp:66-196 | A full command line parses to the expected configuration. |
| CScan.SkipSpace | demo/main.cpp:61 | The white space skipped by a `%d` conversion: the result is no longer than the input, and is empty or starts with a non-space. |
| CScan.SkipSpaceDropsSpace | demo/main.cpp:61 | Only leading white space is dropped, and the result is a suffix of the input. |
| CScan.ScanUnsigned | demo/args.cpp:116-117 | A run of digits reads as a non-negative value and consumes at least one character. |
| CScan.ScanInt | demo/args.cpp:116-117 | A successful `%d` consumes at least one character. |
| CScan.SScanf | demo/main.cpp:61 | The count is EOF exactly when the input is all white space. Otherwise it is the number of values read, and at most the number of conversions. |
| CScan.ScanMore | demo/main.cpp:61 | The conversions after the first read at most what the format asks for. |
| CScan.StrToL | demo/args.cpp:133-134 | strtol reads a number exactly when a `%d` would read one after the white space. |
| CScan.ScanDigits | demo/main.cpp:61 | Digits followed by a non-digit scan as their value, leaving the rest. |
| CScan.ScanNegDigits | demo/main.cpp:61 | '-' then digits scan as the negated value. |
| CScan.ScanMinus | demo/main.cpp:61 | A leading '-' negates whatever the digits after it read. |
| CScan.ScanIntToString | demo/main.cpp:61 | The decimal text of any integer, followed by a non-digit, scans back to that integer. |
| CScan.ScanJoined | demo/args.cpp:157-160 | Up to n integers joined by the separator are all read back, in order, by an n-conversion sscanf. |
| CScan.StrToLToString | demo/args.cpp:133 | strtol reads back the decimal text of any integer. |
| CScan.ScanNoDigits | demo/args.cpp:118-121 | Text starting with a character that is not white space, a digit or a sign followed by a digit makes no conversion, and strtol reads nothing. |
| Decimal.NatToString | doc/gen_gallery.py:59 | The decimal text of n has DigitCount(n) digits, all digits, with no leading zero unless n is 0. |
| Decimal.DigitCountBounds | demo/main.cpp:28-36 | DigitCount(n) is the k with 10^(k-1) <= n < 10^k; 1 for n < 10. |
| Decimal.NatToStringValue | doc/gen_gallery.py:59 | The decimal text of n reads back as n. |
| Decimal.ZeroPad | demo/main.cpp:144 | `%0*zu` gives only digits and is as long as the width or the number, whichever is longer. |
| Decimal.ZeroPadValue | demo/main.cpp:144 | The zero-padded text reads back as the number. |
| Decimal.ZeroPadInjective | demo/main.cpp:141-146 | Different numbers give different zero-padded texts. |
| DemoMain.NumDigits | demo/main.cpp:28-36 | The dividing loop returns the number of decimal digits of i, and 1 for 0. |
| DemoMain.DigitCountMonotone | demo/main.cpp:28-36 | A larger number never has fewer digits. |
| DemoMain.ParseLine | demo/main.cpp:59-73 | A line is skipped exactly when it is all white space. The items it gives are equal copies at the origin, on page 0. |
| DemoMain.LoadFrom | demo/main.cpp:56-74 | An error names the 1-based number of the line in question. A line error is a line with fewer than two numbers; a count error is a line with a negative count. |
| DemoMain.LoadedAtOrigin | demo/main.cpp:39-47 | Every item loaded is at (0, 0) on page 0. |
| DemoMain.Load | demo/main.cpp:50-77 | The items of a whole file, line by line, or the first line's error; `LoadedAtOrigin`, `LoadDataLines` and `BlankLineSkipped` state it. |
| DemoMain.LoadItems | demo/main.cpp:50-77 | The loop over the lines, appending each line's items, gives exactly `Load` of the lines. |
| DemoMain.ScannedTwo | demo/main.cpp:61-73 | Two numbers read give one item of that size. |
| DemoMain.ScannedThree | demo/main.cpp:61-73 | Three numbers give count copies; a negative count is a count error. |
| DemoMain.SizeLineItem | demo/main.cpp:59-73 | The line "WxH" gives exactly one W by H item, for any integers. |
| DemoMain.CountLineItems | demo/main.cpp:59-73 | The line "WxHxN" gives N copies of the item. A negative N is a count error. |
| DemoMain.OneNumberInvalid | demo/main.cpp:64-69 | A line with a single number is invalid. |
| DemoMain.DataLines | doc/gen_gallery.py:94 | One "WxH" line per generated size, in order. |
| DemoMain.LoadDataLines | doc/gen_gallery.py:94 | The lines the gallery script writes, read by the demo, give exactly those rectangles, in order. |
| DemoMain.BlankLineSkipped | demo/main.cpp:62-63 | A blank line contributes nothing and does not stop the loading. |
| DemoMain.ByRectStrictWeakOrder | demo/main.cpp:96-102 | compareItemsByRect is irreflexive and transitive, and two items are unordered exactly when they have the same size. |
| DemoMain.ByPageIdxStrictWeakOrder | demo/main.cpp:105-108 | compareItemsByPageIdx is irreflexive and transitive, and two items are unordered exactly when they are on the same page. |
| DemoMain.ByRect | demo/main.cpp:96-102 | compareItemsByRect; its contract is stated by ByRectStrictWeakOrder (a strict weak order whose ties are the equal sizes) and by SortedByRectOrder (after the sort no item is strictly before an earlier one). |
| DemoMain.ByPageIdx | demo/main.cpp:105-108 | compareItemsByPageIdx; its contract is stated by ByPageIdxStrictWeakOrder (a strict weak order whose ties are the items on one page). |
| DemoMain.Taken | demo/main.cpp:191-203 | What the loop body makes of an item from its insert result: on success the size is kept and x, y and pageIdx become the result's pos and pageIndex; on failure the item becomes the empty rectangle and keeps its page index. PackItem and PackItems state that each item ends as Taken of its result. |
| DemoMain.SortedByRectOrder | dp_rect_pack.h:236-247 | Items sorted this way come in non-increasing height, and equal heights in non-increasing width, as the library asks. |
| DemoMain.InsertRect | demo/main.cpp:190 | The insert succeeds exactly when 0 < w <= max.w and 0 < h <= max.h. The result lies inside its page after padding, and no page shrinks. Every page before the answered one refused the rectangle; an existing page places it at its `Place` position, a new page at the padded origin. |
| DemoMain.PackItem | demo/main.cpp:189-204 | The insert succeeds exactly when the packer's limits admit the item. An accepted item's x, y and pageIdx become the result's pos and pageIndex, its size is kept, and it lies inside that page. A rejected one becomes the empty rectangle and keeps its page index. No other item changes. |
| DemoMain.PackItems | demo/main.cpp:189-204 | After the loop every item is what its own insert result makes of it (position and page index copied, or reset to the empty rectangle), and every accepted item lies inside its page at the final page sizes. |
| DemoMain.Pack | demo/main.cpp:182-212 | The packer is built from the parsed options and every item is inserted. The outcome is "too many pages" exactly when the page count exceeds maxPages. |
| DemoMain.PixelAfter | demo/main.cpp:244-251 | A pixel after drawing a run of items in order, each with its own colour indices; `PixelUncovered` and `PixelLastCover` state it. |
| DemoMain.PixelUncovered | demo/main.cpp:244-251 | A pixel that no drawn item covers keeps the background colour 0. |
| DemoMain.PixelLastCover | demo/main.cpp:244-251 | With the corrected stroke (see ## Findings), a covered pixel shows the last item that covers it: its stroke colour on the item's border, its fill colour inside. |
| DemoMain.PermutationDrawable | demo/main.cpp:214 | Sorting by page only reorders items, so each of them still lies inside its page. |
| DemoMain.ImageName | demo/main.cpp:141-146 | The name is the prefix, then pageIdx zero-padded to numDigits(maxPages) digits, then the extension. |
| DemoMain.ImageNameInjective | demo/main.cpp:141-146 | Different pages get different names. |
| DemoMain.DrawPages | demo/main.cpp:224-254 | Every page with a size is saved under its name, and a page is saved exactly when its size is non-zero. Pages are saved in index order. Each saved page shows exactly the run of items on that page, drawn with the corrected stroke (see ## Findings). |
| DemoMain.DrawPage | demo/main.cpp:231-251 | The inner loop draws exactly the contiguous run of items with this page index, starting where the previous page stopped, onto a canvas of the page's size. Each pixel is what drawing that run in order, with the corrected stroke (see ## Findings), leaves. |
| Gallery.RectSetsValid | doc/gen_gallery.py:30-49 | Every dataset has non-empty ranges, and non-negative exponents when it uses powers of two. |
| Gallery.SizeLimitToStr | doc/gen_gallery.py:55-59 | None gives "infinite", and a limit gives its decimal text. |
| Gallery.SizeLimitReadsBack | doc/gen_gallery.py:55-59 | The text of a limit reads back as that limit. |
| Gallery.CreateImageName | doc/gen_gallery.py:62-64 | '{}_{}_{:04}.png' of the set's name, the limit's label and the page index; `CreateImageNameForm` and `CreateImageNameInjective` state its form. |
| Gallery.RenderPrefix | doc/gen_gallery.py:124-129 | The prefix render_image builds: the name and "_", then the limit and "_", or "infinite_". |
| Gallery.RenderPrefixOfName | doc/gen_gallery.py:62-131 | create_image_name's name is exactly render_image's prefix, then the four-digit page index, then ".png". |
| Gallery.CreateImageNameForm | doc/gen_gallery.py:62-64 | The name is name_label_, four digits reading back as the page index, then ".png". |
| Gallery.CreateImageNameInjective | doc/gen_gallery.py:62-64 | Different page indices give different names. |
| Gallery.DemoWritesGalleryNames | doc/gen_gallery.py:124-131 | The demo, given the script's prefix and its default 9999 pages, names each page exactly as create_image_name does. |
| Gallery.ParsedWithLimit | doc/gen_gallery.py:119-132 | The demo parses the options the script passes with a size limit into that output directory, prefix, data file and square maximum size. |
| Gallery.ParsedWithoutLimit | doc/gen_gallery.py:119-132 | The same without a size limit, leaving the default maximum size. |
| Gallery.RenderArgs | doc/gen_gallery.py:119-132 | The demo's argument list: the executable, -out-dir, -max-size with the limit when there is one, -image-prefix, then the data file; `RenderArgsParsed` states its meaning. |
| Gallery.RenderArgsParsed | doc/gen_gallery.py:113-132 | render_image's command line parses in the demo to the script's prefix, data path, output directory and size limit. |
| Gallery.BigEndian32RoundTrip | doc/gen_gallery.py:160 | Four big-endian bytes of a 32-bit value read back as that value. |
| Gallery.GetPngSize | doc/gen_gallery.py:153-160 | "Not a PNG" exactly when the first 8 bytes are not the PNG signature. A size is returned only when bytes 12..15 are "IHDR", and it is bytes 16..19 and 20..23 read as big-endian integers. |
| Gallery.GetPngSizePrefix | doc/gen_gallery.py:153-160 | Only the first 24 bytes decide the result. |
| Gallery.GetPngSizeOfPng | doc/gen_gallery.py:153-160 | A file starting with a PNG signature and an IHDR chunk of width w and height h probes as (w, h). |
| Gallery.FirstOther | doc/gen_gallery.py:83-86 | The first sample differing from w: it differs from w and is one of the samples; none exactly when every sample equals w. |
| Gallery.FirstOtherIsFirst | doc/gen_gallery.py:83-86 | Every sample before the one chosen equals w. |
| Gallery.SampleHeight | doc/gen_gallery.py:83-86 | The rejection loop returns `FirstOther` of its samples: the first sample differing from w, and none exactly when every sample equals w. |
| Gallery.Pow2Distinct | doc/gen_gallery.py:90-92 | Different exponents give different powers of two, so the power-of-two sets keep w != h. |
| Gallery.LineFrom | doc/gen_gallery.py:80-94 | The line for one sampled width and its height candidates: height w for squares, otherwise `FirstOther` of the candidates, which lies in the height range; both raised to 2^v for pot sets. |
| Gallery.LineFromShape | doc/gen_gallery.py:80-94 | Every such line has w == h for squares and w != h otherwise, a height in the height range, and under pot both values exactly 2^ of the sampled width and height. |
| Gallery.GenerateData | doc/gen_gallery.py:77-94 | There are count lines, and line i is `LineFrom` of sample i: its height is the first candidate differing from the width (or the width for squares), under pot both values are 2^sample. Without a height range w == h; with one w != h. The result is None exactly when some line of a set with a height range has no candidate differing from its width. |
| Gallery.RangeText | doc/gen_gallery.py:208-211 | A range as "[lo..hi]", or "2<sup>[lo..hi]</sup>" under pot; `RangeTextReadsBack` states what it holds. |
| Gallery.RangeTextReadsBack | doc/gen_gallery.py:208-211 | After "[" (or "2<sup>[" under pot) the low bound scans back as an integer, ".." follows, then the high bound scans back, and only "]" and "</sup>" under pot remain. |
| Gallery.RangesText | doc/gen_gallery.py:213-218 | One range for squares, the width and height ranges joined by " × " otherwise. |
| Gallery.Title | doc/gen_gallery.py:207-218 | A title starts with the count and a space and is longer than count, space and name together. |
| Gallery.TitleReadsBack | doc/gen_gallery.py:207-218 | For every set: the title's leading DigitCount(count) characters are digits reading back as the count, then a space, the set's title, and " " followed by the ranges text. |
| Gallery.TitleRects | doc/gen_gallery.py:207-218 | "500 rectangles [6..100] × [6..100]". |
| Gallery.TitleTall | doc/gen_gallery.py:207-218 | "500 tall rectangles [6..30] × [30..100]". |
| Gallery.TitleWide | doc/gen_gallery.py:207-218 | "500 wide rectangles [30..100] × [6..30]". |
| Gallery.TitlePotRects | doc/gen_gallery.py:207-218 | The power-of-two form 2<sup>[2..7]</sup> on both sides of ×. |
| Gallery.TitleSquares | doc/gen_gallery.py:207-218 | Squares have one range. |
| Gallery.TitlePotSquares | doc/gen_gallery.py:207-218 | Power-of-two squares have one range, in the power-of-two form. |
| Gallery.MaxSide | doc/gen_gallery.py:252-263 | The maximum side is at least every width and height found. |
| Gallery.MaxSideAttained | doc/gen_gallery.py:252-263 | For a non-empty list the maximum side is some page's width or height. |
| Gallery.DiscoverPages | doc/gen_gallery.py:250-263 | The paths are the contiguous prefix of existing page names starting at 0. The loop stops at the first missing name or after 9999 pages. Each size is that file's probe, and the maximum side is the largest of them. A probe that fails is reported with its index, after every earlier page probed well. |

## Left out

- File and process I/O is not modelled, and nothing here opens files:
  - `loadItems` and the `fgets` reading in `demo/main.cpp`: the loader takes the lines as a sequence;
  - `saveCanvas`'s `fopen` and `BitmapCanvas::save` (libpng calls and `setjmp`): a saved page is a record of its name and pixels;
  - `chdir` to the output directory;
  - the early exit when no item was loaded;
  - `printHelp` and the messages printed on errors: only which error occurs is modelled.
- `fgets` with a 128-byte buffer: a longer line is modelled as one line, whereas `fgets` splits it into several reads.
- `saveCanvas`'s 256-byte `snprintf` buffer: `ImageName` does not truncate long names.
- `demo/svg_canvas.cpp` is not part of this model. It uses float coordinates and `fprintf`, so only the PNG canvas is modelled.
- `std::sort` internals: the sorted order is a precondition (`SortedByPageIdx`), and the permutation is stated by `PermutationDrawable`.
- The packing in `DemoMain.Pack` does not rely on the items being sorted by rectangle, so that sort is not performed in the model.
- Integer widths:
  - Geometry is unbounded, so 32-bit overflow of `GeomT` arithmetic and of `sscanf`/`strtol` values is not modelled (C leaves it undefined or saturates).
  - The `long` to `int` narrowing of `strtol`'s result is not modelled.
  - `IndexT` overflow of node indices is out of scope.
  - `Rect` fields are `int`.
- `GeomT` templated over float or custom types: only integer geometry is modelled.
- Args.Options.Parse: on a failure, the state of the variables written before the exit is not stated. The source exits with partly updated globals; the model only promises what a successful parse leaves.
- Each `exit` in `parse` becomes an `Outcome` value returned to the caller: help, the usage failure, or an error naming the option.
- DemoMain.LoadFrom: a negative count is reported as `CountError`. The source passes it to `vector::insert` as a huge `size_t`, which is not modelled.
- BitmapCanvas.Canvas.DrawRect strokes with the corrected `StrokeRect`: for a one-row rectangle the source also writes the row below it (past the buffer on the last row), which `DrawRect`, `DemoMain.PixelAfter`, `DemoMain.PixelLastCover`, `DemoMain.DrawPage` and `DemoMain.DrawPages` do not show; `StrokeWritesAsWritten` models that write.
- BitmapCanvas.Canvas.DrawRect requires `rect.w, rect.h >= 0`. The source only asserts that the rectangle is inside the canvas; a negative size is undefined behaviour in `memset`.
- RectPack.Page.TryGrow: on failure the `pos` out-parameter is unspecified. The source leaves it unwritten there.
- `Context::stack` is a local of `FindNode`. It is empty between calls (the source asserts this), so it is not part of the packer's state.
- The gallery script's file writes, `delete_images`, `render_images`, `main`, `generate_html`, and the HTML text other than titles are not modelled.
- The random sampling of `generate_data` is not modelled: the samples are inputs.
- Gallery.GenerateData: a finite sample list stands in for the unbounded `while True` loop, so running out of samples is a `None` outcome that the script does not have.
- The thumbnail `scale` (float division and `round`) is not modelled, including line 280's use of `w * scale` for both width and height.
- Gallery.GetPngSize: `struct.error` raised on a short read is modelled as the `Truncated` probe. A short read of the chunk type is `CorruptPng`, as the comparison with `b'IHDR'` fails.
- Gallery.DiscoverPages: file existence and contents are a map from names to bytes.
- The Title lemmas are stated as concatenations of their parts rather than as one literal string.
- Gallery.TitleReadsBack: that " × " appears exactly when there is a height range is stated by the ranges text, not by a search of the title, since a set's own title could contain " × ".
- BitmapCanvas.Canvas.FillRect computes each row's start as (r.y + i) * w + r.x instead of advancing a pointer by w. The two give the same addresses.
- The tests "Grow right", "spacing.x >= max free width" and "spacing.y >= max free height" (tests/main.cpp:228-367) are not restated as scenarios. The general contracts of `RectPack.RectPacker.Insert` cover them.

## Findings

| source | as written | input that shows it | evidently intended | confidence | as-written member | corrected member |
|---|---|---|---|---|---|---|
| demo/bitmap_canvas.cpp:146-159 | `strokeRect` always ends with a full-row `memset` after `rect.h - 2` side rows. For `rect.h == 1` the loop runs zero times, so that row is the one below the rectangle. | The demo input line `4x1` with default options: the page is 4x1, and `drawRect` writes bytes 4..7 of a 4-byte buffer. | Stroke only the border rows that exist: a one-row rectangle gets just its single row. | not executed | BitmapCanvas.StrokeWritesAsWritten (lemmas StrokeAsWrittenOneRow, StrokeAsWrittenOverruns) | BitmapCanvas.Canvas.StrokeRect |
