/**
 * The demo program's own logic (demo/main.cpp): counting digits, reading the
 * "WxH[xN]" lines of the input, the two sort orders, packing every item,
 * the page-count limit, drawing each page's run of items, and the name of
 * each page image.
 */
module DemoMain {
  import opened Wrappers
  import opened Bytes
  import opened Decimal
  import opened CScan
  import opened Rects
  import opened RectPack
  import opened BitmapCanvas
  import Args

  // ---------------------------------------------------------------------------
  // numDigits

  /** numDigits: divide by ten until nothing is left, counting the digits. */
  method NumDigits(i: int) returns (n: int)
    requires i >= 0
    ensures n == DigitCount(i)
  {
    var j := i;
    n := 1;
    while true
      invariant j >= 0 && n - 1 + DigitCount(j) == DigitCount(i)
      decreases j
    {
      j := j / 10;
      if j == 0 {
        break;
      }
      n := n + 1;
    }
  }

  /** The digit count of a larger number is never smaller. */
  lemma {:induction false} DigitCountMonotone(a: nat, b: nat)
    requires a <= b
    ensures DigitCount(a) <= DigitCount(b)
    decreases b
  {
    if a >= 10 {
      DigitCountMonotone(a / 10, b / 10);
    }
  }

  // ---------------------------------------------------------------------------
  // Items and the input file

  /** A rectangle of the input, where it was placed, and on which page. */
  datatype Item = Item(rect: Rect, pageIdx: nat)

  /** An item as read from the input: at the origin, on page 0. */
  function NewItem(w: int, h: int): Item {
    Item(Rect(0, 0, w, h), 0)
  }

  /** What one line of the input contributes. */
  datatype LineResult =
    | Blank                     // sscanf returned EOF: the line holds only white space
    | Invalid                   // fewer than two numbers
    | NegativeCount             // a count below zero, which the vector insert cannot take
    | Items(items: seq<Item>)   // count copies of the item

  /**
   * One line of the input, read as sscanf reads "%dx%dx%d": a width and a
   * height give one item, a third number gives that many copies.
   */
  function ParseLine(line: string): (r: LineResult)
    ensures r.Blank? <==> SkipSpace(line) == []
    ensures r.Items? ==> forall k :: 0 <= k < |r.items| ==> r.items[k] == r.items[0]
    ensures r.Items? ==> forall k :: 0 <= k < |r.items| ==>
      r.items[k].pageIdx == 0 && r.items[k].rect.x == 0 && r.items[k].rect.y == 0
  {
    var s := SScanf(line, 'x', 3);
    if s.count == -1 then Blank
    else if s.count < 2 then Invalid
    else
      var count := if s.count == 2 then 1 else s.values[2];
      if count < 0 then NegativeCount
      else Items(seq(count, _ => NewItem(s.values[0], s.values[1])))
  }

  /** The outcome of reading the whole input. */
  datatype Loaded =
    | Loaded(items: seq<Item>)
    | LineError(lineNum: nat)
    | CountError(lineNum: nat)

  /** The items of a later part of the input, after the ones already read. */
  function After(prefix: seq<Item>, rest: Loaded): Loaded {
    if rest.Loaded? then Loaded(prefix + rest.items) else rest
  }

  /** What each line of the input contributes, line by line. */
  function ParseLines(lines: seq<string>): (parsed: seq<LineResult>)
    ensures |parsed| == |lines|
  {
    seq(|lines|, k requires 0 <= k < |lines| => ParseLine(lines[k]))
  }

  /**
   * The input from line k on (line numbers start at 1), given what each line
   * contributes: the items of every line in order, or the number of the
   * first line that stops the program.
   */
  function LoadFrom(parsed: seq<LineResult>, k: nat): (r: Loaded)
    requires k <= |parsed|
    ensures r.LineError? ==> k < r.lineNum <= |parsed| && parsed[r.lineNum - 1].Invalid?
    ensures r.CountError? ==> k < r.lineNum <= |parsed| && parsed[r.lineNum - 1].NegativeCount?
    decreases |parsed| - k
  {
    if k == |parsed| then Loaded([])
    else
      match parsed[k]
      case Blank => LoadFrom(parsed, k + 1)
      case Invalid => LineError(k + 1)
      case NegativeCount => CountError(k + 1)
      case Items(items) => After(items, LoadFrom(parsed, k + 1))
  }

  /** The meaning of a whole input file. */
  function Load(lines: seq<string>): Loaded {
    LoadFrom(ParseLines(lines), 0)
  }

  /** Every item read from the input sits at the origin of page 0. */
  lemma {:induction false} LoadedAtOrigin(lines: seq<string>, k: nat)
    requires k <= |lines|
    ensures var r := LoadFrom(ParseLines(lines), k);
      r.Loaded? ==> forall j :: 0 <= j < |r.items| ==>
        r.items[j].pageIdx == 0 && r.items[j].rect.x == 0 && r.items[j].rect.y == 0
    decreases |lines| - k
  {
    if k < |lines| {
      LoadedAtOrigin(lines, k + 1);
      var parsed := ParseLines(lines);
      assert parsed[k] == ParseLine(lines[k]);
    }
  }

  /** loadItemsFp: read the lines one at a time, appending each line's items. */
  method LoadItems(lines: seq<string>) returns (r: Loaded)
    ensures r == Load(lines)
  {
    ghost var parsed := ParseLines(lines);
    var items: seq<Item> := [];
    var lineNum := 0;
    while lineNum < |lines|
      invariant 0 <= lineNum <= |lines|
      invariant LoadFrom(parsed, 0) == After(items, LoadFrom(parsed, lineNum))
    {
      var line := ParseLine(lines[lineNum]);
      assert line == parsed[lineNum];
      lineNum := lineNum + 1;
      match line
      case Blank =>
      case Invalid =>
        return LineError(lineNum);
      case NegativeCount =>
        return CountError(lineNum);
      case Items(more) =>
        AfterAfter(items, more, LoadFrom(parsed, lineNum));
        items := items + more;
    }
    r := Loaded(items);
  }

  /** The items of two parts read one after the other. */
  lemma {:induction false} AfterAfter(a: seq<Item>, b: seq<Item>, rest: Loaded)
    ensures After(a, After(b, rest)) == After(a + b, rest)
  {
    if rest.Loaded? {
      assert a + (b + rest.items) == (a + b) + rest.items;
    }
  }

  /** The text of one line "WxH" as a data file holds it. */
  function SizeLine(w: int, h: int): string {
    IntToString(w) + "x" + IntToString(h) + "\n"
  }

  /** The text of one line "WxHxN". */
  function CountLine(w: int, h: int, count: int): string {
    IntToString(w) + "x" + IntToString(h) + "x" + IntToString(count) + "\n"
  }

  /** The "WxH" text is the two numbers joined by 'x'. */
  lemma {:induction false} SizeLineJoined(w: int, h: int)
    ensures SizeLine(w, h) == Joined([w, h], 'x') + "\n"
  {
    var vs := [w, h];
    assert vs[1..] == [h];
    Regroup(IntToString(w), "x", IntToString(h), "\n");
  }

  /** The "WxHxN" text is the three numbers joined by 'x'. */
  lemma {:induction false} CountLineJoined(w: int, h: int, count: int)
    ensures CountLine(w, h, count) == Joined([w, h, count], 'x') + "\n"
  {
    var vs := [w, h, count];
    assert vs[1..] == [h, count];
    assert vs[1..][1..] == [count];
    var a, b, c := IntToString(w), IntToString(h), IntToString(count);
    assert Joined(vs[1..], 'x') == b + ("x" + c);
    assert Joined(vs, 'x') == a + ("x" + (b + ("x" + c)));
    Regroup(a, "x", b + ("x" + c), "\n");
    Regroup(b, "x", c, "\n");
  }

  /** A line sscanf reads as two numbers gives one item. */
  lemma {:induction false} ScannedTwo(line: string, w: int, h: int)
    requires SScanf(line, 'x', 3) == ScanResult(2, [w, h])
    ensures ParseLine(line) == Items([NewItem(w, h)])
  {
  }

  /** A line sscanf reads as three numbers gives that many copies, or an error. */
  lemma {:induction false} ScannedThree(line: string, w: int, h: int, count: int)
    requires SScanf(line, 'x', 3) == ScanResult(3, [w, h, count])
    ensures count >= 0 ==> ParseLine(line) == Items(seq(count, _ => NewItem(w, h)))
    ensures count < 0 ==> ParseLine(line).NegativeCount?
  {
  }

  /** A "WxH" line reads back as one item of that size. */
  lemma {:induction false} SizeLineItem(w: int, h: int)
    ensures ParseLine(SizeLine(w, h)) == Items([NewItem(w, h)])
  {
    var line := SizeLine(w, h);
    SizeLineJoined(w, h);
    ScanJoined([w, h], 'x', "\n", 3);
    ScannedTwo(line, w, h);
  }

  /** A "WxHxN" line reads back as N copies, and a negative N is an error. */
  lemma {:induction false} CountLineItems(w: int, h: int, count: int)
    ensures count >= 0 ==> ParseLine(CountLine(w, h, count)) == Items(seq(count, _ => NewItem(w, h)))
    ensures count < 0 ==> ParseLine(CountLine(w, h, count)).NegativeCount?
  {
    var line := CountLine(w, h, count);
    CountLineJoined(w, h, count);
    ScanJoined([w, h, count], 'x', "\n", 3);
    ScannedThree(line, w, h, count);
  }

  /** A line whose first number is not followed by 'x' and a second number is refused. */
  lemma {:induction false} OneNumberInvalid(w: int)
    ensures ParseLine(IntToString(w) + "\n").Invalid?
  {
    ScanJoined([w], 'x', "\n", 3);
  }

  /** The lines of a data file listing the sizes in order, one "WxH" each. */
  function DataLines(sizes: seq<(int, int)>): (lines: seq<string>)
    ensures |lines| == |sizes|
    ensures forall k :: 0 <= k < |sizes| ==> lines[k] == SizeLine(sizes[k].0, sizes[k].1)
  {
    seq(|sizes|, k requires 0 <= k < |sizes| => SizeLine(sizes[k].0, sizes[k].1))
  }

  /** The items a list of sizes stands for, one each. */
  function SizeItems(sizes: seq<(int, int)>): (items: seq<Item>)
    ensures |items| == |sizes|
    ensures forall k :: 0 <= k < |sizes| ==> items[k] == NewItem(sizes[k].0, sizes[k].1)
  {
    seq(|sizes|, k requires 0 <= k < |sizes| => NewItem(sizes[k].0, sizes[k].1))
  }

  /** Lines that each contribute one item give those items, in order. */
  lemma {:induction false} LoadSingles(parsed: seq<LineResult>, items: seq<Item>, k: nat)
    requires |parsed| == |items| && k <= |parsed|
    requires forall j :: 0 <= j < |parsed| ==> parsed[j] == Items([items[j]])
    ensures LoadFrom(parsed, k) == Loaded(items[k..])
    decreases |parsed| - k
  {
    if k < |parsed| {
      LoadSingles(parsed, items, k + 1);
      assert items[k..] == [items[k]] + items[k + 1..];
    }
  }

  /** Reading a file written as "WxH" lines gives back exactly the items of those sizes. */
  lemma {:induction false} LoadDataLines(sizes: seq<(int, int)>)
    ensures Load(DataLines(sizes)) == Loaded(SizeItems(sizes))
  {
    var lines, items := DataLines(sizes), SizeItems(sizes);
    var parsed := ParseLines(lines);
    forall j | 0 <= j < |parsed|
      ensures parsed[j] == Items([items[j]])
    {
      SizeLineItem(sizes[j].0, sizes[j].1);
    }
    LoadSingles(parsed, items, 0);
    assert items[0..] == items;
  }

  /** A blank line in the middle of the input changes nothing. */
  lemma {:induction false} BlankLineSkipped(lines: seq<string>, k: nat)
    requires k < |lines| && SkipSpace(lines[k]) == []
    ensures LoadFrom(ParseLines(lines), k) == LoadFrom(ParseLines(lines), k + 1)
  {
    assert ParseLines(lines)[k] == ParseLine(lines[k]);
  }

  // ---------------------------------------------------------------------------
  // The two orders

  /** compareItemsByRect: taller first, and of equal heights the wider first. */
  predicate ByRect(a: Item, b: Item) {
    if a.rect.h != b.rect.h then a.rect.h > b.rect.h else a.rect.w > b.rect.w
  }

  /** compareItemsByPageIdx: lower page first. */
  predicate ByPageIdx(a: Item, b: Item) {
    a.pageIdx < b.pageIdx
  }

  /** Both comparators are strict weak orders, as std::sort demands. */
  lemma {:induction false} ByRectStrictWeakOrder(a: Item, b: Item, c: Item)
    ensures !ByRect(a, a)
    ensures ByRect(a, b) && ByRect(b, c) ==> ByRect(a, c)
    ensures (!ByRect(a, b) && !ByRect(b, a)) <==> (a.rect.w == b.rect.w && a.rect.h == b.rect.h)
  {
  }

  lemma {:induction false} ByPageIdxStrictWeakOrder(a: Item, b: Item, c: Item)
    ensures !ByPageIdx(a, a)
    ensures ByPageIdx(a, b) && ByPageIdx(b, c) ==> ByPageIdx(a, c)
    ensures (!ByPageIdx(a, b) && !ByPageIdx(b, a)) <==> a.pageIdx == b.pageIdx
  {
  }

  /** What std::sort leaves: no item comes after one it orders before. */
  predicate SortedByRect(items: seq<Item>) {
    forall i, j :: 0 <= i < j < |items| ==> !ByRect(items[j], items[i])
  }

  predicate SortedByPageIdx(items: seq<Item>) {
    forall i, j :: 0 <= i < j < |items| ==> !ByPageIdx(items[j], items[i])
  }

  /**
   * Sorted by rectangle, the heights never increase and equal heights have
   * widths that never increase: the input order the packer documents.
   */
  lemma {:induction false} SortedByRectOrder(items: seq<Item>, i: nat, j: nat)
    requires SortedByRect(items) && i < j < |items|
    ensures items[i].rect.h >= items[j].rect.h
    ensures items[i].rect.h == items[j].rect.h ==> items[i].rect.w >= items[j].rect.w
  {
    assert !ByRect(items[j], items[i]);
  }

  // ---------------------------------------------------------------------------
  // Packing

  /** A rectangle inside a page of the given size, within its padding. */
  predicate InPage(r: Rect, s: Size, pad: Padding) {
    pad.left <= r.x && r.x + r.w + pad.right <= s.w &&
    pad.top <= r.y && r.y + r.h + pad.bottom <= s.h
  }

  /**
   * The outcome of packing one item, given the packer's limits and the sizes
   * its pages ended with: an item the limits admit keeps its size and lies
   * inside its page; any other item is reset to the empty rectangle.
   */
  predicate Packed(before: Item, after: Item, ctx: Context, sizes: seq<Size>) {
    var r := before.rect;
    if 0 < r.w <= ctx.maxSize.w && 0 < r.h <= ctx.maxSize.h then
      after.rect.w == r.w && after.rect.h == r.h && after.pageIdx < |sizes| &&
      InPage(after.rect, sizes[after.pageIdx], ctx.padding)
    else
      after == Item(EmptyRect, before.pageIdx)
  }

  /** Every size of the second list holds the size at the same index of the first. */
  predicate Grown(sizes: seq<Size>, sizes': seq<Size>) {
    |sizes| <= |sizes'| && forall j :: 0 <= j < |sizes| ==> Fits(sizes[j], sizes'[j])
  }

  /** An item packed into smaller pages is still packed once the pages grew. */
  lemma {:induction false} PackedGrown(before: Item, after: Item, ctx: Context, sizes: seq<Size>, sizes': seq<Size>)
    requires Packed(before, after, ctx, sizes) && Grown(sizes, sizes')
    ensures Packed(before, after, ctx, sizes')
  {
  }

  /** The sizes of all pages of the packer. */
  ghost function PageSizes(packer: RectPacker): (sizes: seq<Size>)
    reads packer, packer.pages
    requires packer.Valid()
    ensures |sizes| == packer.NumPages()
    ensures forall j :: 0 <= j < |sizes| ==> sizes[j] == packer.PageSize(j)
  {
    seq(|packer.pages|, j requires packer.Valid() && 0 <= j < |packer.pages| reads packer, packer.pages => packer.PageSize(j))
  }

  /** Every page of the packer is either one of the first ones or new. */
  twostate predicate OldOrFresh(packer: RectPacker)
    reads packer
  {
    forall j :: 0 <= j < |packer.pages| ==> packer.pages[j] in old(packer.pages) || fresh(packer.pages[j])
  }

  /**
   * The packer's answer for one rectangle, seen from main: whether the
   * limits admit it and, if so, a position inside the page it went to, with
   * the pages only grown.
   */
  method InsertRect(packer: RectPacker, w: int, h: int) returns (result: InsertResult)
    requires packer.Valid()
    modifies packer, packer.pages
    ensures packer.Valid() && OldOrFresh(packer) && Grown(old(PageSizes(packer)), PageSizes(packer))
    ensures result.status.Ok? <==> (0 < w <= packer.ctx.maxSize.w && 0 < h <= packer.ctx.maxSize.h)
    ensures result.status.Ok? ==>
      result.pageIndex < |PageSizes(packer)| &&
      InPage(Rect(result.pos.x, result.pos.y, w, h), PageSizes(packer)[result.pageIndex], packer.ctx.padding)
    ensures result.status.Ok? ==>
      var rect, i, n := Size(w, h), result.pageIndex, old(|packer.pages|);
      i <= n && (forall j :: 0 <= j < i ==> old(!packer.pages[j].Accepts(packer.ctx, rect))) &&
      (i < n ==> old(packer.pages[i].Accepts(packer.ctx, rect)) &&
                 result.pos == old(Place(packer.pages[i].nodes, packer.pages[i].rootIdx, packer.ctx, rect)).value.pos) &&
      (i == n ==> result.pos == packer.ctx.Origin())
  {
    result := packer.Insert(w, h);
  }

  /**
   * An item after the packer answered it: reset to the empty rectangle when
   * refused, otherwise at the answered position on the answered page.
   */
  function Taken(item: Item, result: InsertResult): (after: Item)
    ensures result.status.Ok? ==>
      after.rect.w == item.rect.w && after.rect.h == item.rect.h &&
      after.rect.x == result.pos.x && after.rect.y == result.pos.y && after.pageIdx == result.pageIndex
    ensures !result.status.Ok? ==> after.rect == EmptyRect && after.pageIdx == item.pageIdx
  {
    if result.status != InsertStatus.Ok then item.(rect := EmptyRect)
    else Item(Rect(result.pos.x, result.pos.y, item.rect.w, item.rect.h), result.pageIndex)
  }

  /** One turn of the insert loop: the item goes to the packer and takes the outcome. */
  method PackItem(packer: RectPacker, items: array<Item>, i: nat) returns (result: InsertResult)
    requires packer.Valid() && i < items.Length
    modifies packer, packer.pages, items
    ensures packer.Valid() && OldOrFresh(packer) && Grown(old(PageSizes(packer)), PageSizes(packer))
    ensures result.status.Ok? <==> (0 < old(items[i]).rect.w <= packer.ctx.maxSize.w && 0 < old(items[i]).rect.h <= packer.ctx.maxSize.h)
    ensures items[i] == Taken(old(items[i]), result)
    ensures Packed(old(items[i]), items[i], packer.ctx, PageSizes(packer))
    ensures forall k :: 0 <= k < items.Length && k != i ==> items[k] == old(items[k])
  {
    var item := items[i];
    result := InsertRect(packer, item.rect.w, item.rect.h);
    if result.status != InsertStatus.Ok {
      items[i] := item.(rect := EmptyRect);
    } else {
      items[i] := Item(Rect(result.pos.x, result.pos.y, item.rect.w, item.rect.h), result.pageIndex);
    }
  }

  /**
   * The insert loop of main: every item goes to the packer in turn; a
   * rejected one is reset to the empty rectangle, an accepted one takes its
   * position and page. Every accepted item lies inside its page as the
   * pages end up.
   */
  method PackItems(packer: RectPacker, items: array<Item>) returns (ghost results: seq<InsertResult>)
    requires packer.Valid()
    modifies packer, packer.pages, items
    ensures packer.Valid() && OldOrFresh(packer) && Grown(old(PageSizes(packer)), PageSizes(packer))
    ensures |results| == items.Length
    ensures forall k :: 0 <= k < items.Length ==> items[k] == Taken(old(items[k]), results[k])
    ensures forall k :: 0 <= k < items.Length ==> Packed(old(items[k]), items[k], packer.ctx, PageSizes(packer))
  {
    results := [];
    var i := 0;
    while i < items.Length
      invariant 0 <= i <= items.Length && |results| == i
      invariant packer.Valid() && OldOrFresh(packer) && Grown(old(PageSizes(packer)), PageSizes(packer))
      invariant forall k :: 0 <= k < i ==> items[k] == Taken(old(items[k]), results[k])
      invariant forall k :: 0 <= k < i ==> Packed(old(items[k]), items[k], packer.ctx, PageSizes(packer))
      invariant forall k :: i <= k < items.Length ==> items[k] == old(items[k])
    {
      ghost var sizes := PageSizes(packer);
      var result := PackItem(packer, items, i);
      results := results + [result];
      ghost var sizes' := PageSizes(packer);
      forall k | 0 <= k < i
        ensures Packed(old(items[k]), items[k], packer.ctx, sizes')
      {
        PackedGrown(old(items[k]), items[k], packer.ctx, sizes, sizes');
      }
      i := i + 1;
    }
  }

  /** The outcome of packing: too many pages stops the program. */
  datatype PackOutcome = TooManyPages(numPages: nat) | Fitted(numPages: nat)

  /**
   * The packer built from the configuration, the insert loop, and the
   * check of the page count against the limit.
   */
  method Pack(config: Args.Config, items: array<Item>) returns (packer: RectPacker, outcome: PackOutcome)
    requires config.Shaped()
    modifies items
    ensures fresh(packer) && packer.Valid()
    ensures ClampedFrom(packer.ctx, config.maxPageSize[0], config.maxPageSize[1],
                        Spacing(config.spacing[0], config.spacing[1]),
                        Padding(config.padding[0], config.padding[1], config.padding[2], config.padding[3]))
    ensures forall k :: 0 <= k < items.Length ==> Packed(old(items[k]), items[k], packer.ctx, PageSizes(packer))
    ensures outcome.TooManyPages? <==> packer.NumPages() > config.maxPages
    ensures outcome.numPages == packer.NumPages()
  {
    packer := new RectPacker(config.maxPageSize[0], config.maxPageSize[1],
                             Spacing(config.spacing[0], config.spacing[1]),
                             Padding(config.padding[0], config.padding[1], config.padding[2], config.padding[3]));
    ghost var results := PackItems(packer, items);
    var numPages := packer.NumPages();
    if numPages > config.maxPages {
      return packer, TooManyPages(numPages);
    }
    outcome := Fitted(numPages);
  }

  // ---------------------------------------------------------------------------
  // Drawing the pages

  /**
   * The colour of a pixel once rectangles first .. last - 1 were drawn onto
   * a white page, rectangle k in the colours of index k.
   */
  function PixelAfter(items: seq<Item>, first: nat, last: nat, row: int, col: int): byte
    requires first <= last <= |items|
    decreases last - first
  {
    if last == first then 0
    else
      var k := last - 1;
      Painted(PixelAfter(items, first, k, row, col), row, col, items[k].rect, FillColorIdx(k), StrokeColorIdx(k))
  }

  /** A pixel no rectangle of the run covers stays white. */
  lemma {:induction false} PixelUncovered(items: seq<Item>, first: nat, last: nat, row: int, col: int)
    requires first <= last <= |items|
    requires forall k :: first <= k < last ==> !InRect(row, col, items[k].rect)
    ensures PixelAfter(items, first, last, row, col) == 0
    decreases last - first
  {
    if last > first {
      PixelUncovered(items, first, last - 1, row, col);
    }
  }

  /**
   * A pixel takes the colours of the last rectangle of the run covering it:
   * its stroke colour on that rectangle's border, its fill colour inside.
   */
  lemma {:induction false} PixelLastCover(items: seq<Item>, first: nat, k: nat, last: nat, row: int, col: int)
    requires first <= k < last <= |items| && InRect(row, col, items[k].rect)
    requires forall j :: k < j < last ==> !InRect(row, col, items[j].rect)
    ensures PixelAfter(items, first, last, row, col) ==
      if OnBorder(row, col, items[k].rect) then StrokeColorIdx(k) else FillColorIdx(k)
    decreases last - first
  {
    if last - 1 > k {
      PixelLastCover(items, first, k, last - 1, row, col);
    }
  }

  /** An item the drawing loop can draw on its page: reset to nothing, or inside the page. */
  predicate Drawable(item: Item, ctx: Context, sizes: seq<Size>) {
    item.rect == EmptyRect ||
    (item.rect.w > 0 && item.rect.h > 0 && item.pageIdx < |sizes| &&
     InPage(item.rect, sizes[item.pageIdx], ctx.padding))
  }

  /** Packing leaves every item drawable. */
  lemma {:induction false} PackedDrawable(before: Item, after: Item, ctx: Context, sizes: seq<Size>)
    requires Packed(before, after, ctx, sizes)
    ensures Drawable(after, ctx, sizes)
  {
  }

  /**
   * Sorting by page only reorders the items, so a sorted copy of drawable
   * items is drawable too.
   */
  lemma {:induction false} PermutationDrawable(items: seq<Item>, sorted: seq<Item>, ctx: Context, sizes: seq<Size>)
    requires multiset(items) == multiset(sorted)
    requires forall k :: 0 <= k < |items| ==> Drawable(items[k], ctx, sizes)
    ensures forall k :: 0 <= k < |sorted| ==> Drawable(sorted[k], ctx, sizes)
  {
    forall k | 0 <= k < |sorted|
      ensures Drawable(sorted[k], ctx, sizes)
    {
      assert sorted[k] in multiset(sorted);
      var j :| 0 <= j < |items| && items[j] == sorted[k];
    }
  }

  /** The width of the page number in image names: the digits of the page limit. */
  function ImageName(prefix: string, pageIdx: nat, maxPages: nat, ext: string): (name: string)
    requires pageIdx <= maxPages
    ensures |name| == |prefix| + DigitCount(maxPages) + |ext|
    ensures name[..|prefix|] == prefix && name[|name| - |ext|..] == ext
    ensures AllDigits(name[|prefix|..|name| - |ext|]) &&
      DigitsValue(name[|prefix|..|name| - |ext|]) == pageIdx
  {
    DigitCountMonotone(pageIdx, maxPages);
    ZeroPadValue(pageIdx, DigitCount(maxPages));
    var digits := ZeroPad(pageIdx, DigitCount(maxPages));
    var name := prefix + digits + ext;
    assert name[|prefix|..|name| - |ext|] == digits;
    name
  }

  /** Different pages get different image names. */
  lemma {:induction false} ImageNameInjective(prefix: string, i: nat, j: nat, maxPages: nat, ext: string)
    requires i <= maxPages && j <= maxPages
    requires ImageName(prefix, i, maxPages, ext) == ImageName(prefix, j, maxPages, ext)
    ensures i == j
  {
  }

  /** One saved page image: its page, its size, the run of items drawn, its name and its pixels. */
  datatype SavedPage = SavedPage(pageIdx: nat, w: nat, h: nat, first: nat, last: nat, name: string, pixels: seq<byte>)

  /**
   * A page image showing the run first .. last - 1 of the items: a w * h
   * buffer holding, at every pixel, the colour drawing that run leaves.
   */
  predicate ShowsRun(s: SavedPage, items: seq<Item>) {
    s.w > 0 && s.first <= s.last <= |items| && |s.pixels| == s.w * s.h &&
    forall q :: 0 <= q < |s.pixels| ==> s.pixels[q] == PixelAfter(items, s.first, s.last, q / s.w, q % s.w)
  }

  /** The run of a page is exactly the items of that page. */
  predicate RunOfPage(s: SavedPage, items: seq<Item>) {
    forall k :: 0 <= k < |items| ==> (s.first <= k < s.last <==> items[k].pageIdx == s.pageIdx)
  }

  /** What the drawing loop promises about one saved page. */
  predicate SavedRight(s: SavedPage, items: seq<Item>, sizes: seq<Size>, prefix: string, maxPages: nat) {
    s.pageIdx < |sizes| && s.pageIdx <= maxPages &&
    Size(s.w, s.h) == sizes[s.pageIdx] && s.w > 0 && s.h > 0 &&
    s.name == ImageName(prefix, s.pageIdx, maxPages, ".png") &&
    RunOfPage(s, items) && ShowsRun(s, items)
  }

  /** The pages that have a size, as page numbers. */
  predicate IsSavedIndex(saved: seq<SavedPage>, p: nat) {
    exists i :: 0 <= i < |saved| && saved[i].pageIdx == p
  }

  /**
   * What the page loop keeps: the pages before p are done, every saved page
   * is right and they come in order, the pages with a size among them are
   * exactly the saved ones, and while pages remain the next item is the first
   * of page p.
   */
  predicate Drawn(saved: seq<SavedPage>, items: seq<Item>, sizes: seq<Size>, prefix: string, maxPages: nat,
                  p: nat, itemIdx: nat)
  {
    p <= |sizes| && itemIdx <= |items| &&
    (p < |sizes| ==> forall k :: 0 <= k < |items| ==> (k < itemIdx <==> items[k].pageIdx < p)) &&
    (forall i :: 0 <= i < |saved| ==> SavedRight(saved[i], items, sizes, prefix, maxPages)) &&
    (forall i :: 0 <= i < |saved| ==> saved[i].pageIdx < p) &&
    (forall i, j :: 0 <= i < j < |saved| ==> saved[i].pageIdx < saved[j].pageIdx) &&
    (forall q :: 0 <= q < p ==> ((sizes[q].w > 0 && sizes[q].h > 0) <==> IsSavedIndex(saved, q)))
  }

  /**
   * What main promises once the page loop ends: every saved page is right,
   * they come in page order, and a page is saved exactly when it has a size.
   */
  predicate AllSaved(saved: seq<SavedPage>, items: seq<Item>, sizes: seq<Size>, prefix: string, maxPages: nat) {
    (forall i :: 0 <= i < |saved| ==> SavedRight(saved[i], items, sizes, prefix, maxPages)) &&
    (forall i, j :: 0 <= i < j < |saved| ==> saved[i].pageIdx < saved[j].pageIdx) &&
    (forall p :: 0 <= p < |sizes| ==> ((sizes[p].w > 0 && sizes[p].h > 0) <==> IsSavedIndex(saved, p)))
  }

  /** When the loop has passed the last page, everything is saved. */
  lemma {:induction false} DrawnAll(saved: seq<SavedPage>, items: seq<Item>, sizes: seq<Size>, prefix: string, maxPages: nat,
                 itemIdx: nat)
    requires Drawn(saved, items, sizes, prefix, maxPages, |sizes|, itemIdx)
    ensures AllSaved(saved, items, sizes, prefix, maxPages)
  {
  }

  /** A page without a size is skipped; it can only be the single page. */
  lemma {:induction false} SkipStep(saved: seq<SavedPage>, items: seq<Item>, sizes: seq<Size>, prefix: string, maxPages: nat,
                 p: nat, itemIdx: nat)
    requires Drawn(saved, items, sizes, prefix, maxPages, p, itemIdx)
    requires p < |sizes| == 1 && (sizes[p].w == 0 || sizes[p].h == 0)
    ensures Drawn(saved, items, sizes, prefix, maxPages, p + 1, itemIdx)
  {
    assert forall i :: 0 <= i < |saved| ==> saved[i].pageIdx != p;
  }

  /** Appending the image of page p keeps every earlier page found and finds p. */
  lemma {:induction false} SavedAppended(saved: seq<SavedPage>, page: SavedPage, p: nat)
    requires page.pageIdx == p
    ensures forall q :: IsSavedIndex(saved + [page], q) <==> (IsSavedIndex(saved, q) || q == p)
  {
    var s := saved + [page];
    forall q | IsSavedIndex(s, q)
      ensures IsSavedIndex(saved, q) || q == p
    {
      var i :| 0 <= i < |s| && s[i].pageIdx == q;
      if i < |saved| {
        assert saved[i].pageIdx == q;
      }
    }
    forall q | IsSavedIndex(saved, q)
      ensures IsSavedIndex(s, q)
    {
      var i :| 0 <= i < |saved| && saved[i].pageIdx == q;
      assert s[i].pageIdx == q;
    }
    assert s[|saved|].pageIdx == p;
  }

  /** A page with a size is saved with the run of its items. */
  lemma {:induction false} SaveStep(saved: seq<SavedPage>, items: seq<Item>, sizes: seq<Size>, prefix: string, maxPages: nat,
                 p: nat, itemIdx: nat, page: SavedPage)
    requires Drawn(saved, items, sizes, prefix, maxPages, p, itemIdx)
    requires p < |sizes| && SavedRight(page, items, sizes, prefix, maxPages)
    requires page.pageIdx == p && page.first == itemIdx
    requires forall k :: 0 <= k < |items| ==> (k < page.last <==> items[k].pageIdx <= p)
    ensures Drawn(saved + [page], items, sizes, prefix, maxPages, p + 1, page.last)
  {
    SavedAppended(saved, page, p);
    var s := saved + [page];
    forall i | 0 <= i < |s|
      ensures SavedRight(s[i], items, sizes, prefix, maxPages) && s[i].pageIdx < p + 1
    {
      if i < |saved| {
        assert s[i] == saved[i];
      }
    }
    forall q | 0 <= q < p + 1
      ensures (sizes[q].w > 0 && sizes[q].h > 0) <==> IsSavedIndex(s, q)
    {
      if q < p && IsSavedIndex(s, q) {
        assert IsSavedIndex(saved, q);
      }
    }
  }

  /**
   * The page loop of main over the items sorted by page: every page with a
   * non-zero size gets a fresh canvas, the run of items on that page is
   * drawn in order, and the canvas is saved under its name. Each saved page
   * holds exactly the items of that page, and no page with a size is missed.
   */
  method DrawPages(packer: RectPacker, items: seq<Item>, prefix: string, maxPages: nat)
    returns (saved: seq<SavedPage>)
    requires packer.Valid() && packer.NumPages() <= maxPages
    requires SortedByPageIdx(items)
    requires forall k :: 0 <= k < |items| ==> Drawable(items[k], packer.ctx, PageSizes(packer))
    ensures AllSaved(saved, items, PageSizes(packer), prefix, maxPages)
  {
    ghost var sizes := PageSizes(packer);
    saved := [];
    var itemIdx := 0;
    var pageIdx := 0;
    while pageIdx < packer.NumPages()
      invariant Drawn(saved, items, sizes, prefix, maxPages, pageIdx, itemIdx)
    {
      var size := packer.PageSize(pageIdx);
      if size.w == 0 || size.h == 0 {
        // Only an empty page can have no size, and then it is the only page.
        assert !packer.pages[pageIdx].Seeded();
        SkipStep(saved, items, sizes, prefix, maxPages, pageIdx, itemIdx);
        pageIdx := pageIdx + 1;
        continue;
      }
      var page := DrawPage(packer, items, pageIdx, itemIdx);
      page := page.(name := ImageName(prefix, pageIdx, maxPages, ".png"));
      SaveStep(saved, items, sizes, prefix, maxPages, pageIdx, itemIdx, page);
      saved := saved + [page];
      itemIdx := page.last;
      pageIdx := pageIdx + 1;
    }
    DrawnAll(saved, items, sizes, prefix, maxPages, itemIdx);
  }

  /** The inner loop for one page: draw the run of items of that page onto a fresh canvas. */
  method DrawPage(packer: RectPacker, items: seq<Item>, pageIdx: nat, first: nat)
    returns (page: SavedPage)
    requires packer.Valid() && pageIdx < packer.NumPages()
    requires packer.PageSize(pageIdx).w > 0 && packer.PageSize(pageIdx).h > 0
    requires SortedByPageIdx(items) && first <= |items|
    requires forall k :: 0 <= k < |items| ==> Drawable(items[k], packer.ctx, PageSizes(packer))
    requires forall k :: 0 <= k < |items| ==> (k < first <==> items[k].pageIdx < pageIdx)
    ensures page.pageIdx == pageIdx && page.first == first && Size(page.w, page.h) == packer.PageSize(pageIdx)
    ensures forall k :: 0 <= k < |items| ==> (k < page.last <==> items[k].pageIdx <= pageIdx)
    ensures RunOfPage(page, items) && ShowsRun(page, items)
  {
    var size := packer.PageSize(pageIdx);
    ghost var sizes := PageSizes(packer);
    var canvas := new Canvas(size.w, size.h);
    var itemIdx := first;
    while itemIdx < |items|
      invariant first <= itemIdx <= |items| && canvas.Valid() && canvas.w == size.w && canvas.h == size.h
      invariant forall k :: first <= k < itemIdx ==> items[k].pageIdx == pageIdx
      invariant forall q :: 0 <= q < canvas.data.Length ==>
        canvas.data[q] == PixelAfter(items, first, itemIdx, q / canvas.w, q % canvas.w)
    {
      var item := items[itemIdx];
      if item.pageIdx != pageIdx {
        break;
      }
      assert Drawable(item, packer.ctx, sizes) && sizes[pageIdx] == size;
      canvas.DrawRect(item.rect, itemIdx);
      itemIdx := itemIdx + 1;
    }
    page := SavedPage(pageIdx, size.w, size.h, first, itemIdx, "", canvas.data[..]);
    assert forall k :: itemIdx <= k < |items| ==> items[k].pageIdx > pageIdx by {
      if itemIdx < |items| {
        forall k | itemIdx <= k < |items|
          ensures items[k].pageIdx > pageIdx
        {
          assert !ByPageIdx(items[k], items[itemIdx]) || k == itemIdx;
        }
      }
    }
  }
}
