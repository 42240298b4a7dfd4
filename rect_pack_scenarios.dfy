/**
 * Scenarios of the packer's own test suite (tests/main.cpp), stated as
 * method contracts: each method builds a packer, inserts rectangles, and its
 * postconditions are the statuses, positions, page indices and page sizes the
 * tests expect.
 */
module RectPackScenarios {
  import opened Wrappers
  import opened RectPack

  /** "Normal" construction: one page, as large as its padding. */
  method NormalConstruction() returns (numPages: nat, size: Size)
    ensures numPages == 1 && size == Size(3 + 4, 1 + 2)
  {
    var packer := new RectPacker(10, 15, Spacing(1, 2), Padding(1, 2, 3, 4));
    numPages := packer.NumPages();
    size := packer.PageSize(0);
  }

  /** A negative maximum size is clamped to 0, so no rectangle fits. */
  method NegativeMaxSize() returns (r: InsertResult, numPages: nat, size: Size)
    ensures r.status == RectTooBig && numPages == 1 && size == Size(0, 0)
  {
    var packer := new RectPacker(-10, -15, Spacing(0, 0), Padding(0, 0, 0, 0));
    r := packer.Insert(1, 1);
    numPages := packer.NumPages();
    size := packer.PageSize(0);
  }

  /** Negative padding is clamped to 0: a full-size rectangle fills the first page. */
  method NegativePadding() returns (r1: InsertResult, r2: InsertResult, size0: Size, size1: Size)
    ensures r1 == InsertResult(InsertStatus.Ok, Position(0, 0), 0) && size0 == Size(10, 15)
    ensures r2 == InsertResult(InsertStatus.Ok, Position(0, 0), 1) && size1 == Size(1, 1)
  {
    var packer := new RectPacker(10, 15, Spacing(0, 0), Padding(-1, -2, -3, -4));
    r1 := InsertFirst(packer, 10, 15);
    r2 := packer.Insert(1, 1);
    size0 := packer.PageSize(0);
    size1 := packer.PageSize(1);
  }

  /** Negative spacing is clamped to 0: two half-width rectangles sit side by side. */
  method NegativeSpacing() returns (r1: InsertResult, r2: InsertResult, size: Size)
    ensures r1 == InsertResult(InsertStatus.Ok, Position(0, 0), 0)
    ensures r2 == InsertResult(InsertStatus.Ok, Position(5, 0), 0) && size == Size(10, 15)
  {
    var packer := new RectPacker(10, 15, Spacing(-1, -2), Padding(0, 0, 0, 0));
    r1 := InsertFirst(packer, 5, 15);
    r2 := packer.Insert(5, 15);
    size := packer.PageSize(0);
  }

  /** Padding larger than the page eats the whole page. */
  method PaddingLimited() returns (r: InsertResult, size: Size)
    ensures r.status == RectTooBig && size == Size(10, 15)
  {
    var packer := new RectPacker(10, 15, Spacing(0, 0), Padding(16, 17, 11, 12));
    r := packer.Insert(1, 1);
    size := packer.PageSize(0);
  }

  /**
   * The error statuses, for the nine sizes of the test in its order: three
   * negative, three zero, and three just over the 3 x 12 that fits inside the
   * padding. The packer keeps its one page at its padding size.
   */
  method Errors() returns (statuses: seq<InsertStatus>, numPages: nat, size: Size)
    ensures statuses == [NegativeSize, NegativeSize, NegativeSize, ZeroSize, ZeroSize, ZeroSize,
                         RectTooBig, RectTooBig, RectTooBig]
    ensures numPages == 1 && size == Size(3 + 4, 1 + 2)
  {
    var packer := new RectPacker(10, 15, Spacing(1, 2), Padding(1, 2, 3, 4));
    var maxRectW, maxRectH := 10 - (3 + 4), 15 - (1 + 2);
    var r1 := packer.Insert(-1, 1);
    var r2 := packer.Insert(1, -1);
    var r3 := packer.Insert(-1, -1);
    var r4 := packer.Insert(0, 1);
    var r5 := packer.Insert(1, 0);
    var r6 := packer.Insert(0, 0);
    var r7 := packer.Insert(maxRectW + 1, 1);
    var r8 := packer.Insert(1, maxRectH + 1);
    var r9 := packer.Insert(maxRectW + 1, maxRectH + 1);
    statuses := [r1.status, r2.status, r3.status, r4.status, r5.status, r6.status,
                 r7.status, r8.status, r9.status];
    numPages := packer.NumPages();
    size := packer.PageSize(0);
  }

  /** The limits of the grow-down packer: 30 x 21 inside the padding. */
  function Tall(): Context {
    Context(Size(30, 21), Spacing(1, 2), Padding(1, 2, 3, 4))
  }

  /** The page after the grow-down step: a wrapper around the old root, a free strip beside it, and a row below. */
  function AfterGrowDown(): seq<Node> {
    [Node(Size(20, 10), 0, 0), Node(Size(30, 21), 2, 4), Node(Size(30, 10), 3, 0),
     FreeNode(9, 10), Node(Size(30, 9), 0, 0)]
  }

  /** The same page once the free strip took a 9 x 10 rectangle. */
  function AfterFill(): seq<Node> {
    AfterGrowDown()[3 := Node(Size(9, 10), 0, 0)]
  }

  lemma {:induction false} AfterGrowDownInv()
    ensures PageInv(AfterGrowDown(), 1, Tall()) && PageInv(AfterFill(), 1, Tall())
  {
    var s, t := AfterGrowDown(), AfterFill();
    assert NodeOk(s, 0) && NodeOk(s, 1) && NodeOk(s, 2) && NodeOk(s, 3) && NodeOk(s, 4);
    assert NodeOk(t, 0) && NodeOk(t, 1) && NodeOk(t, 2) && NodeOk(t, 3) && NodeOk(t, 4);
  }

  /** A 30 x 9 rectangle is wider than the 20 x 10 root: the root grows down. */
  lemma {:induction false} GrowDownSecond()
    ensures PageInv([Node(Size(20, 10), 0, 0)], 0, Tall())
    ensures Place([Node(Size(20, 10), 0, 0)], 0, Tall(), Size(30, 9)) ==
      Some(Placement(AfterGrowDown(), 1, Position(3, 13)))
  {
    var s := [Node(Size(20, 10), 0, 0)];
    assert NodeOk(s, 0);
    assert Dfs(s, Size(30, 9), 0, Position(3, 1)).None?;
    assert MustGrowDown(Size(20, 10), Tall(), Size(30, 9));
    assert GrownDown(s, 0, Tall(), Size(30, 9)) == AfterGrowDown();
  }

  /** A 9 x 10 rectangle goes into the free strip beside the old root. */
  lemma {:induction false} GrowDownThird()
    ensures PageInv(AfterGrowDown(), 1, Tall())
    ensures Place(AfterGrowDown(), 1, Tall(), Size(9, 10)) == Some(Placement(AfterFill(), 1, Position(24, 1)))
  {
    AfterGrowDownInv();
    var s := AfterGrowDown();
    assert Dfs(s, Size(9, 10), 3, Position(24, 1)) == Some(StackState(3, Position(24, 1)));
    assert Dfs(s, Size(9, 10), 2, Position(3, 1)) == Some(StackState(3, Position(24, 1)));
    assert Dfs(s, Size(9, 10), 1, Position(3, 1)) == Some(StackState(3, Position(24, 1)));
    assert Subdivided(s, 3, Size(9, 10), Tall()) == AfterFill();
  }

  /** The full page takes no 1 x 1 rectangle. */
  lemma {:induction false} GrowDownFourth()
    ensures PageInv(AfterFill(), 1, Tall())
    ensures Place(AfterFill(), 1, Tall(), Size(1, 1)).None?
  {
    AfterGrowDownInv();
    var t := AfterFill();
    assert Dfs(t, Size(1, 1), 2, Position(3, 1)).None?;
    assert Dfs(t, Size(1, 1), 4, Position(3, 13)).None?;
  }

  /** The packer has the limits ctx and exactly the pages whose nodes and root indices layouts lists. */
  ghost predicate PagesAre(packer: RectPacker, ctx: Context, layouts: seq<(seq<Node>, nat)>)
    reads packer, packer.pages
  {
    packer.Valid() && packer.ctx == ctx && |packer.pages| == |layouts| &&
    forall j :: 0 <= j < |layouts| ==>
      packer.pages[j].nodes == layouts[j].0 && packer.pages[j].rootIdx == layouts[j].1
  }

  /** The first rectangle put into a new packer lands on its first page, at the origin. */
  method InsertFirst(packer: RectPacker, width: int, height: int) returns (r: InsertResult)
    requires PagesAre(packer, packer.ctx, [([FreeNode(0, 0)], 0)])
    requires 0 < width <= packer.ctx.maxSize.w && 0 < height <= packer.ctx.maxSize.h
    modifies packer, packer.pages
    ensures PagesAre(packer, packer.ctx, [([Node(Size(width, height), 0, 0)], 0)]) && packer.pages == old(packer.pages)
    ensures r == InsertResult(InsertStatus.Ok, packer.ctx.Origin(), 0)
  {
    assert packer.pages[0].nodes == [FreeNode(0, 0)] && packer.pages[0].rootIdx == 0;
    r := packer.Insert(width, height);
    assert r.pageIndex == 0;
  }

  /** The second insert of the grow-down test: the root grows down. */
  method GrowDownInsertSecond(packer: RectPacker) returns (r2: InsertResult)
    requires PagesAre(packer, Tall(), [([Node(Size(20, 10), 0, 0)], 0)])
    modifies packer, packer.pages
    ensures PagesAre(packer, Tall(), [(AfterGrowDown(), 1)]) && packer.pages == old(packer.pages)
    ensures r2 == InsertResult(InsertStatus.Ok, Position(3, 10 + 1 + 2), 0)
  {
    GrowDownSecond();
    assert packer.pages[0].nodes == [Node(Size(20, 10), 0, 0)] && packer.pages[0].rootIdx == 0;
    r2 := packer.Insert(30, 9);
    assert r2.pageIndex == 0;
  }

  /** The third insert of the grow-down test: the free strip takes the rectangle. */
  method GrowDownInsertThird(packer: RectPacker) returns (r3: InsertResult)
    requires PagesAre(packer, Tall(), [(AfterGrowDown(), 1)])
    modifies packer, packer.pages
    ensures PagesAre(packer, Tall(), [(AfterFill(), 1)]) && packer.pages == old(packer.pages)
    ensures r3 == InsertResult(InsertStatus.Ok, Position(20 + 3 + 1, 1), 0)
  {
    GrowDownThird();
    assert packer.pages[0].nodes == AfterGrowDown() && packer.pages[0].rootIdx == 1;
    r3 := packer.Insert(10 - 1, 10);
    assert r3.pageIndex == 0;
  }

  /** The fourth insert of the grow-down test: the full page sends the rectangle to a new page. */
  method GrowDownInsertFourth(packer: RectPacker) returns (r4: InsertResult)
    requires PagesAre(packer, Tall(), [(AfterFill(), 1)])
    modifies packer, packer.pages
    ensures packer.Valid() && |packer.pages| == 2
    ensures packer.PageSize(0) == Size(30 + 7, 19 + 3 + 2) && packer.PageSize(1) == Size(1 + 7, 1 + 3)
    ensures r4 == InsertResult(InsertStatus.Ok, Position(3, 1), 1)
  {
    GrowDownFourth();
    assert packer.pages[0].nodes == AfterFill() && packer.pages[0].rootIdx == 1;
    r4 := packer.Insert(1, 1);
    assert r4.pageIndex == 1;
    assert packer.pages[0].nodes == AfterFill() && packer.pages[0].rootIdx == 1;
    assert AfterFill()[1].size == Size(30, 21);
  }

  /**
   * "Grow down; root.w < rect.w": the wider second rectangle makes the root
   * grow down, the free space beside the old root takes the third one, and
   * the full page sends the fourth one to a new page.
   */
  method GrowDownScenario() returns (r1: InsertResult, r2: InsertResult, r3: InsertResult, r4: InsertResult,
                                     size0: Size, size1: Size)
    ensures r1 == InsertResult(InsertStatus.Ok, Position(3, 1), 0)
    ensures r2 == InsertResult(InsertStatus.Ok, Position(3, 10 + 1 + 2), 0)
    ensures r3 == InsertResult(InsertStatus.Ok, Position(20 + 3 + 1, 1), 0)
    ensures r4 == InsertResult(InsertStatus.Ok, Position(3, 1), 1)
    ensures size0 == Size(30 + 7, 19 + 3 + 2) && size1 == Size(1 + 7, 1 + 3)
  {
    var packer := new RectPacker(30 + 7, 19 + 3 + 2, Spacing(1, 2), Padding(1, 2, 3, 4));
    assert packer.ctx == Tall();
    r1 := InsertFirst(packer, 20, 10);
    r2 := GrowDownInsertSecond(packer);
    r3 := GrowDownInsertThird(packer);
    r4 := GrowDownInsertFourth(packer);
    size0 := packer.PageSize(0);
    size1 := packer.PageSize(1);
  }

  /** The limits of a 10 x 15 packer without spacing or padding. */
  function Plain(): Context {
    Context(Size(10, 15), Spacing(0, 0), Padding(0, 0, 0, 0))
  }

  /** A 4 x 15 rectangle does not fit a page holding a 7 x 15 one. */
  lemma {:induction false} SecondRejected()
    ensures PageInv([Node(Size(7, 15), 0, 0)], 0, Plain())
    ensures Place([Node(Size(7, 15), 0, 0)], 0, Plain(), Size(4, 15)).None?
  {
    assert NodeOk([Node(Size(7, 15), 0, 0)], 0);
  }

  /** A 3 x 15 rectangle fits beside the 7 x 15 one: the root grows right. */
  lemma {:induction false} ThirdAccepted()
    ensures PageInv([Node(Size(7, 15), 0, 0)], 0, Plain())
    ensures var p := Place([Node(Size(7, 15), 0, 0)], 0, Plain(), Size(3, 15));
      p.Some? && p.value.pos == Position(7, 0) && p.value.rootIdx == 1 &&
      p.value.nodes[1].size == Size(10, 15)
  {
    assert NodeOk([Node(Size(7, 15), 0, 0)], 0);
  }

  /** The second insert of the existing-page test: the rectangle opens a second page. */
  method ExistingPageInsertSecond(packer: RectPacker) returns (r2: InsertResult)
    requires PagesAre(packer, Plain(), [([Node(Size(7, 15), 0, 0)], 0)])
    modifies packer, packer.pages
    ensures PagesAre(packer, Plain(), [([Node(Size(7, 15), 0, 0)], 0), ([Node(Size(4, 15), 0, 0)], 0)])
    ensures packer.pages[0] == old(packer.pages[0]) && fresh(packer.pages[1])
    ensures r2 == InsertResult(InsertStatus.Ok, Position(0, 0), 1)
  {
    SecondRejected();
    r2 := packer.Insert(4, 15);
  }

  /** The third insert of the existing-page test: the rectangle still goes into the first page. */
  method ExistingPageInsertThird(packer: RectPacker) returns (r3: InsertResult)
    requires PagesAre(packer, Plain(), [([Node(Size(7, 15), 0, 0)], 0), ([Node(Size(4, 15), 0, 0)], 0)])
    modifies packer, packer.pages
    ensures |packer.pages| == 2 && packer.pages == old(packer.pages) && packer.Valid() && packer.ctx == Plain()
    ensures packer.pages[0].nodes[packer.pages[0].rootIdx].size == Size(10, 15)
    ensures packer.pages[1].nodes == [Node(Size(4, 15), 0, 0)] && packer.pages[1].rootIdx == 0
    ensures r3 == InsertResult(InsertStatus.Ok, Position(7, 0), 0)
  {
    ThirdAccepted();
    assert packer.pages[0].nodes == [Node(Size(7, 15), 0, 0)] && packer.pages[0].rootIdx == 0;
    assert packer.pages[1].nodes == [Node(Size(4, 15), 0, 0)] && packer.pages[1].rootIdx == 0;
    r3 := packer.Insert(3, 15);
    assert r3.pageIndex == 0;
  }

  /**
   * "Insert in an existing page": a rectangle that does not fit the first page
   * opens a second one, and a later one still goes into the first.
   */
  method ExistingPageScenario() returns (r1: InsertResult, r2: InsertResult, r3: InsertResult,
                                         numPages: nat, size0: Size, size1: Size)
    ensures r1 == InsertResult(InsertStatus.Ok, Position(0, 0), 0)
    ensures r2 == InsertResult(InsertStatus.Ok, Position(0, 0), 1)
    ensures r3 == InsertResult(InsertStatus.Ok, Position(7, 0), 0)
    ensures numPages == 2 && size0 == Size(10, 15) && size1 == Size(4, 15)
  {
    var packer := new RectPacker(10, 15, Spacing(0, 0), Padding(0, 0, 0, 0));
    assert packer.ctx == Plain();
    r1 := InsertFirst(packer, 7, 15);
    r2 := ExistingPageInsertSecond(packer);
    r3 := ExistingPageInsertThird(packer);
    numPages := packer.NumPages();
    size0 := packer.PageSize(0);
    size1 := packer.PageSize(1);
  }
}
