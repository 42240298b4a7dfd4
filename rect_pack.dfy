/**
 * The rectangle packer of dp_rect_pack.h, with GeomT = int.
 *
 * A RectPacker owns a sequence of pages. Each page keeps a binary tree of
 * free space in a growing vector of nodes; a node's child index 0 means "no
 * child", and a node whose two child indices are both 1 is a free leaf. A
 * rectangle goes into the first free leaf that a depth-first search (right
 * child before bottom child) finds on the first page that can take it; when no
 * leaf fits, the page tries to grow its root downwards or to the right, and
 * when no page can take the rectangle a new page is appended.
 *
 * The pure functions below (Dfs, Subdivided, GrownDown, GrownRight, Place) are
 * the specification of one insertion into a page; the methods of Page and
 * RectPacker do the same work step by step, in place, and are proved equal to
 * them. The lemmas state what the packer keeps: a well-formed tree whose root
 * never exceeds the maximum size, placements inside the page, and pages whose
 * sizes never shrink.
 */
module RectPack {
  import opened Wrappers

  /** Status of an insertion; only Ok is a success. */
  datatype InsertStatus = Ok | NegativeSize | ZeroSize | RectTooBig

  datatype Spacing = Spacing(x: int, y: int)

  datatype Padding = Padding(top: int, bottom: int, left: int, right: int)

  datatype Position = Position(x: int, y: int)

  /** When status is not Ok, pos and pageIndex carry no meaning. */
  datatype InsertResult = InsertResult(status: InsertStatus, pos: Position, pageIndex: nat)

  /** A size held by the packer; every stored size is non-negative. */
  datatype Size = Size(w: nat, h: nat)

  datatype Node = Node(size: Size, rightIdx: nat, bottomIdx: nat) {
    /** A free leaf: both child indices are the marker 1. */
    predicate IsEmpty() {
      rightIdx == 1 && bottomIdx == 1
    }
  }

  /** A node as built by the two-argument Node constructor: a free leaf. */
  function FreeNode(w: nat, h: nat): Node {
    Node(Size(w, h), 1, 1)
  }

  /** A node index with the page position of that node's top-left corner. */
  datatype StackState = StackState(nodeIdx: nat, pos: Position)

  /** The clamped page limits shared by all pages of a packer. */
  datatype Context = Context(maxSize: Size, spacing: Spacing, padding: Padding) {
    predicate Valid() {
      spacing.x >= 0 && spacing.y >= 0 &&
      padding.top >= 0 && padding.bottom >= 0 && padding.left >= 0 && padding.right >= 0
    }

    /** Where the root of every page starts: inside the top and left padding. */
    function Origin(): Position {
      Position(padding.left, padding.top)
    }
  }

  function Max(a: nat, b: nat): nat {
    if a < b then b else a
  }

  function Max0(v: int): nat {
    if v < 0 then 0 else v
  }

  // ---------------------------------------------------------------------------
  // Context construction

  /**
   * The relation between the arguments of the Context constructor and the
   * clamped context: the maximum size and the spacing are clamped to 0, and each
   * padding side, taken in the order top, bottom, left, right, is clamped into
   * what remains of the maximum size, which loses exactly the padding kept.
   */
  ghost predicate ClampedFrom(ctx: Context, maxPageWidth: int, maxPageHeight: int,
                              rectsSpacing: Spacing, pagePadding: Padding)
  {
    var h, w := Max0(maxPageHeight), Max0(maxPageWidth);
    var p, q := pagePadding, ctx.padding;
    ctx.Valid() &&
    ctx.spacing == Spacing(Max0(rectsSpacing.x), Max0(rectsSpacing.y)) &&
    ctx.maxSize.h + q.top + q.bottom == h &&
    ctx.maxSize.w + q.left + q.right == w &&
    (p.top < 0 ==> q.top == 0) &&
    (0 <= p.top <= h ==> q.top == p.top) &&
    (p.top > h ==> q.top == h) &&
    (p.bottom < 0 ==> q.bottom == 0) &&
    (0 <= p.bottom <= h - q.top ==> q.bottom == p.bottom) &&
    (p.bottom > h - q.top ==> q.bottom == h - q.top) &&
    (p.left < 0 ==> q.left == 0) &&
    (0 <= p.left <= w ==> q.left == p.left) &&
    (p.left > w ==> q.left == w) &&
    (p.right < 0 ==> q.right == 0) &&
    (0 <= p.right <= w - q.left ==> q.right == p.right) &&
    (p.right > w - q.left ==> q.right == w - q.left)
  }

  /**
   * One padding side of the Context constructor: a negative side becomes 0; a
   * side smaller than what remains of the maximum size is taken from it; a
   * larger one is cut to what remains, which leaves nothing.
   */
  method ClampSide(side: int, avail: nat) returns (kept: nat, rest: nat)
    ensures kept + rest == avail
    ensures side < 0 ==> kept == 0
    ensures 0 <= side <= avail ==> kept == side
    ensures side > avail ==> kept == avail
  {
    if side < 0 {
      kept, rest := 0, avail;
    } else if side < avail {
      kept, rest := side, avail - side;
    } else {
      kept, rest := avail, 0;
    }
  }

  /** The Context constructor: clamps the limits one field at a time. */
  method NewContext(maxPageWidth: int, maxPageHeight: int,
                    rectsSpacing: Spacing, pagePadding: Padding) returns (ctx: Context)
    ensures ClampedFrom(ctx, maxPageWidth, maxPageHeight, rectsSpacing, pagePadding)
  {
    var maxW, maxH := maxPageWidth, maxPageHeight;
    var spacing, padding := rectsSpacing, pagePadding;

    if maxW < 0 {
      maxW := 0;
    }
    if maxH < 0 {
      maxH := 0;
    }

    if spacing.x < 0 {
      spacing := spacing.(x := 0);
    }
    if spacing.y < 0 {
      spacing := spacing.(y := 0);
    }

    var top, bottom, left, right;
    top, maxH := ClampSide(padding.top, maxH);
    bottom, maxH := ClampSide(padding.bottom, maxH);
    left, maxW := ClampSide(padding.left, maxW);
    right, maxW := ClampSide(padding.right, maxW);
    padding := Padding(top, bottom, left, right);

    ctx := Context(Size(maxW, maxH), spacing, padding);
  }

  // ---------------------------------------------------------------------------
  // Shape of a page's node tree

  predicate Fits(rect: Size, s: Size) {
    rect.w <= s.w && rect.h <= s.h
  }

  /** A child is no larger than its parent in either dimension, and smaller in sum. */
  predicate Within(inner: Size, outer: Size) {
    Fits(inner, outer) && inner.w + inner.h < outer.w + outer.h
  }

  predicate ChildOk(nodes: seq<Node>, parent: Size, c: nat) {
    c == 0 || (c < |nodes| && Within(nodes[c].size, parent))
  }

  predicate NodeOk(nodes: seq<Node>, k: nat)
    requires k < |nodes|
  {
    nodes[k].IsEmpty() ||
    (ChildOk(nodes, nodes[k].size, nodes[k].rightIdx) &&
     ChildOk(nodes, nodes[k].size, nodes[k].bottomIdx))
  }

  predicate WellFormed(nodes: seq<Node>) {
    forall k :: 0 <= k < |nodes| ==> NodeOk(nodes, k)
  }

  /**
   * What a page keeps between insertions. Before the first insertion the page
   * is the single zero-sized free node; afterwards node 0 is a full leaf, the
   * root is at least 1 x 1, and the root never exceeds the maximum size.
   */
  ghost predicate PageInv(nodes: seq<Node>, rootIdx: nat, ctx: Context) {
    ctx.Valid() && |nodes| >= 1 && rootIdx < |nodes| && WellFormed(nodes) &&
    (nodes[0].size.w == 0 ==> nodes == [FreeNode(0, 0)] && rootIdx == 0) &&
    (nodes[0].size.w != 0 ==>
       !nodes[0].IsEmpty() && nodes[rootIdx].size.w >= 1 && nodes[rootIdx].size.h >= 1) &&
    Fits(nodes[rootIdx].size, ctx.maxSize)
  }

  /** A rectangle that passed the checks of RectPacker::insert. */
  predicate RectFits(ctx: Context, rect: Size) {
    rect.w > 0 && rect.h > 0 && Fits(rect, ctx.maxSize)
  }

  // ---------------------------------------------------------------------------
  // The depth-first search of findNode

  function RightPos(nodes: seq<Node>, k: nat, pos: Position): Position
    requires k < |nodes| && nodes[k].rightIdx < |nodes|
  {
    Position(pos.x + nodes[k].size.w - nodes[nodes[k].rightIdx].size.w, pos.y)
  }

  function BottomPos(nodes: seq<Node>, k: nat, pos: Position): Position
    requires k < |nodes| && nodes[k].bottomIdx < |nodes|
  {
    Position(pos.x, pos.y + nodes[k].size.h - nodes[nodes[k].bottomIdx].size.h)
  }

  function OrElse<T>(a: Option<T>, b: Option<T>): Option<T> {
    if a.Some? then a else b
  }

  /**
   * The first free leaf, in pre-order with the right child before the bottom
   * child, that the rectangle fits, looking only below nodes it fits.
   */
  ghost function Dfs(nodes: seq<Node>, rect: Size, k: nat, pos: Position): Option<StackState>
    requires WellFormed(nodes) && k < |nodes|
    decreases nodes[k].size.w + nodes[k].size.h
  {
    assert NodeOk(nodes, k);
    var n := nodes[k];
    if !Fits(rect, n.size) then None
    else if n.IsEmpty() then Some(StackState(k, pos))
    else if n.rightIdx != 0 then
      OrElse(Dfs(nodes, rect, n.rightIdx, RightPos(nodes, k, pos)),
             if n.bottomIdx != 0 then Dfs(nodes, rect, n.bottomIdx, BottomPos(nodes, k, pos)) else None)
    else if n.bottomIdx != 0 then Dfs(nodes, rect, n.bottomIdx, BottomPos(nodes, k, pos))
    else None
  }

  /** Some free leaf below k fits the rectangle, whether or not its ancestors do. */
  ghost predicate HasFreeFit(nodes: seq<Node>, rect: Size, k: nat)
    requires WellFormed(nodes) && k < |nodes|
    decreases nodes[k].size.w + nodes[k].size.h
  {
    assert NodeOk(nodes, k);
    var n := nodes[k];
    if n.IsEmpty() then Fits(rect, n.size)
    else (n.rightIdx != 0 && HasFreeFit(nodes, rect, n.rightIdx)) ||
         (n.bottomIdx != 0 && HasFreeFit(nodes, rect, n.bottomIdx))
  }

  /** Number of nodes below k, counting k: what the search may still visit. */
  ghost function Weight(nodes: seq<Node>, k: nat): nat
    requires WellFormed(nodes) && k < |nodes|
    decreases nodes[k].size.w + nodes[k].size.h
  {
    assert NodeOk(nodes, k);
    var n := nodes[k];
    if n.IsEmpty() then 1
    else 1 + (if n.rightIdx != 0 then Weight(nodes, n.rightIdx) else 0)
           + (if n.bottomIdx != 0 then Weight(nodes, n.bottomIdx) else 0)
  }

  ghost predicate StackInBounds(nodes: seq<Node>, stack: seq<StackState>) {
    forall i :: 0 <= i < |stack| ==> stack[i].nodeIdx < |nodes|
  }

  /** The search over the saved states, the most recently pushed first. */
  ghost function StackDfs(nodes: seq<Node>, rect: Size, stack: seq<StackState>): Option<StackState>
    requires WellFormed(nodes) && StackInBounds(nodes, stack)
  {
    if stack == [] then None
    else
      var top := stack[|stack| - 1];
      OrElse(Dfs(nodes, rect, top.nodeIdx, top.pos), StackDfs(nodes, rect, stack[..|stack| - 1]))
  }

  ghost function StackWeight(nodes: seq<Node>, stack: seq<StackState>): nat
    requires WellFormed(nodes) && StackInBounds(nodes, stack)
  {
    if stack == [] then 0
    else Weight(nodes, stack[|stack| - 1].nodeIdx) + StackWeight(nodes, stack[..|stack| - 1])
  }

  /**
   * What the search finds is a free leaf that the rectangle fits, and the leaf
   * lies inside the node the search started from.
   */
  lemma {:induction false} DfsFound(nodes: seq<Node>, rect: Size, k: nat, pos: Position)
    requires WellFormed(nodes) && k < |nodes|
    ensures var d := Dfs(nodes, rect, k, pos);
      d.Some? ==>
        d.value.nodeIdx < |nodes| && nodes[d.value.nodeIdx].IsEmpty() &&
        Fits(rect, nodes[d.value.nodeIdx].size) &&
        pos.x <= d.value.pos.x &&
        d.value.pos.x + nodes[d.value.nodeIdx].size.w <= pos.x + nodes[k].size.w &&
        pos.y <= d.value.pos.y &&
        d.value.pos.y + nodes[d.value.nodeIdx].size.h <= pos.y + nodes[k].size.h
    decreases nodes[k].size.w + nodes[k].size.h
  {
    assert NodeOk(nodes, k);
    var n := nodes[k];
    if Fits(rect, n.size) && !n.IsEmpty() {
      if n.rightIdx != 0 {
        DfsFound(nodes, rect, n.rightIdx, RightPos(nodes, k, pos));
      }
      if n.bottomIdx != 0 {
        DfsFound(nodes, rect, n.bottomIdx, BottomPos(nodes, k, pos));
      }
    }
  }

  /** A rectangle that does not fit a node fits no free leaf below it. */
  lemma {:induction false} NoFreeFitBelow(nodes: seq<Node>, rect: Size, k: nat)
    requires WellFormed(nodes) && k < |nodes| && !Fits(rect, nodes[k].size)
    ensures !HasFreeFit(nodes, rect, k)
    decreases nodes[k].size.w + nodes[k].size.h
  {
    assert NodeOk(nodes, k);
    var n := nodes[k];
    if !n.IsEmpty() {
      if n.rightIdx != 0 {
        NoFreeFitBelow(nodes, rect, n.rightIdx);
      }
      if n.bottomIdx != 0 {
        NoFreeFitBelow(nodes, rect, n.bottomIdx);
      }
    }
  }

  /**
   * The search misses nothing: it succeeds exactly when some free leaf below
   * the start node fits the rectangle.
   */
  lemma {:induction false} DfsComplete(nodes: seq<Node>, rect: Size, k: nat, pos: Position)
    requires WellFormed(nodes) && k < |nodes|
    ensures Dfs(nodes, rect, k, pos).Some? <==> HasFreeFit(nodes, rect, k)
    decreases nodes[k].size.w + nodes[k].size.h
  {
    assert NodeOk(nodes, k);
    var n := nodes[k];
    if !Fits(rect, n.size) {
      NoFreeFitBelow(nodes, rect, k);
    } else if !n.IsEmpty() {
      if n.rightIdx != 0 {
        DfsComplete(nodes, rect, n.rightIdx, RightPos(nodes, k, pos));
      }
      if n.bottomIdx != 0 {
        DfsComplete(nodes, rect, n.bottomIdx, BottomPos(nodes, k, pos));
      }
    }
  }

  // ---------------------------------------------------------------------------
  // How an insertion changes a page

  /**
   * subdivideNode: turn free leaf k, whose top-left corner now holds the
   * rectangle, into an inner node whose new children are the free space to the
   * right of the rectangle and below it, each kept only when it is wider or
   * taller than the spacing.
   */
  function Subdivided(nodes: seq<Node>, k: nat, rect: Size, ctx: Context): (r: seq<Node>)
    requires k < |nodes| && Fits(rect, nodes[k].size) && ctx.Valid()
    ensures |nodes| <= |r| <= |nodes| + 2
  {
    var n := nodes[k];
    var rightW := n.size.w - rect.w;
    var bottomH := n.size.h - rect.h;
    var withRight :=
      if rightW > ctx.spacing.x
      then nodes[k := n.(rightIdx := |nodes|)] + [FreeNode(rightW - ctx.spacing.x, rect.h)]
      else nodes[k := n.(rightIdx := 0)];
    if bottomH > ctx.spacing.y
    then withRight[k := withRight[k].(bottomIdx := |withRight|)] + [FreeNode(n.size.w, bottomH - ctx.spacing.y)]
    else withRight[k := withRight[k].(bottomIdx := 0)]
  }

  /**
   * growDown: a new root, appended at index |nodes|, holds the old root at the
   * top and a new row of the rectangle's height below it; free space to the
   * right of the old root and of the rectangle becomes free leaves when it is
   * wider than the spacing.
   */
  function GrownDown(nodes: seq<Node>, rootIdx: nat, ctx: Context, rect: Size): seq<Node>
    requires rootIdx < |nodes| && ctx.Valid()
  {
    var n := |nodes|;
    var root := nodes[rootIdx].size;
    var newW := Max(root.w, rect.w);
    var wrap := root.w < newW && newW - root.w > ctx.spacing.x;
    var split := rect.w < newW && newW - rect.w > ctx.spacing.x;
    var rowIdx := if wrap then n + 3 else n + 1;
    var top :=
      if wrap
      then [Node(Size(newW, root.h + rect.h + ctx.spacing.y), n + 1, rowIdx),
            Node(Size(newW, root.h), n + 2, rootIdx),
            FreeNode(newW - root.w - ctx.spacing.x, root.h)]
      else [Node(Size(newW, root.h + rect.h + ctx.spacing.y), rootIdx, rowIdx)];
    var row :=
      if split
      then [Node(Size(newW, rect.h), rowIdx + 1, 0), FreeNode(newW - rect.w - ctx.spacing.x, rect.h)]
      else [Node(Size(newW, rect.h), 0, 0)];
    nodes + top + row
  }

  /**
   * growRight: a new root, appended at index |nodes|, holds the old root on the
   * left and a new column of the rectangle's width on the right; free space
   * below the old root and below the rectangle becomes free leaves when it is
   * taller than the spacing.
   */
  function GrownRight(nodes: seq<Node>, rootIdx: nat, ctx: Context, rect: Size): seq<Node>
    requires rootIdx < |nodes| && ctx.Valid()
  {
    var n := |nodes|;
    var root := nodes[rootIdx].size;
    var newH := Max(root.h, rect.h);
    var wrap := root.h < newH && newH - root.h > ctx.spacing.y;
    var split := rect.h < newH && newH - rect.h > ctx.spacing.y;
    var colIdx := if wrap then n + 3 else n + 1;
    var left :=
      if wrap
      then [Node(Size(root.w + rect.w + ctx.spacing.x, newH), colIdx, n + 1),
            Node(Size(root.w, newH), rootIdx, n + 2),
            FreeNode(root.w, newH - root.h - ctx.spacing.y)]
      else [Node(Size(root.w + rect.w + ctx.spacing.x, newH), colIdx, rootIdx)];
    var col :=
      if split
      then [Node(Size(rect.w, newH), 0, colIdx + 1), FreeNode(rect.w, newH - rect.h - ctx.spacing.y)]
      else [Node(Size(rect.w, newH), 0, 0)];
    nodes + left + col
  }

  /**
   * canGrowDown of tryGrow: below the root there is room for the rectangle
   * and the spacing.
   */
  predicate CanGrowDown(root: Size, ctx: Context, rect: Size) {
    var freeH := ctx.maxSize.h - root.h;
    freeH >= rect.h && freeH - rect.h >= ctx.spacing.y
  }

  /** mustGrowDown of tryGrow: growing down is possible and keeps the page no taller than wide. */
  predicate MustGrowDown(root: Size, ctx: Context, rect: Size) {
    var freeW := ctx.maxSize.w - root.w;
    CanGrowDown(root, ctx, rect) && freeW >= ctx.spacing.x &&
    root.w + ctx.spacing.x >= root.h + rect.h + ctx.spacing.y
  }

  /** canGrowRight of tryGrow. */
  predicate CanGrowRight(root: Size, ctx: Context, rect: Size) {
    var freeW := ctx.maxSize.w - root.w;
    freeW >= rect.w && freeW - rect.w >= ctx.spacing.x
  }

  /** A page's nodes and root after an insertion, and where the rectangle went. */
  datatype Placement = Placement(nodes: seq<Node>, rootIdx: nat, pos: Position)

  /**
   * Page::insert as a function: a page that never took a rectangle takes it
   * at the origin; otherwise the rectangle goes into the leaf the search finds,
   * or the root grows down, or right; None when the page cannot take it.
   */
  ghost function Place(nodes: seq<Node>, rootIdx: nat, ctx: Context, rect: Size): Option<Placement>
    requires PageInv(nodes, rootIdx, ctx) && RectFits(ctx, rect)
  {
    if nodes[0].size.w == 0 then
      Some(Placement(nodes[0 := Node(rect, 0, 0)], rootIdx, ctx.Origin()))
    else
      var found := Dfs(nodes, rect, rootIdx, ctx.Origin());
      if found.Some? then
        DfsFound(nodes, rect, rootIdx, ctx.Origin());
        Some(Placement(Subdivided(nodes, found.value.nodeIdx, rect, ctx), rootIdx, found.value.pos))
      else
        var root := nodes[rootIdx].size;
        if MustGrowDown(root, ctx, rect) then
          Some(Placement(GrownDown(nodes, rootIdx, ctx, rect), |nodes|,
                         Position(ctx.padding.left, ctx.padding.top + root.h + ctx.spacing.y)))
        else if CanGrowRight(root, ctx, rect) then
          Some(Placement(GrownRight(nodes, rootIdx, ctx, rect), |nodes|,
                         Position(ctx.padding.left + root.w + ctx.spacing.x, ctx.padding.top)))
        else None
  }

  // ---------------------------------------------------------------------------
  // Lemmas: an insertion keeps the page invariant, places the rectangle inside
  // the page, and never shrinks the root.

  /** Nodes appended, or changed only in their child indices, keep the tree well formed. */
  lemma {:induction false} ExtendWellFormed(before: seq<Node>, after: seq<Node>)
    requires WellFormed(before) && |before| <= |after|
    requires forall k :: 0 <= k < |before| ==> after[k].size == before[k].size
    requires forall k :: 0 <= k < |after| && (k >= |before| || after[k] != before[k]) ==> NodeOk(after, k)
    ensures WellFormed(after)
  {
    forall k | 0 <= k < |after|
      ensures NodeOk(after, k)
    {
      if k < |before| && after[k] == before[k] {
        assert NodeOk(before, k);
      }
    }
  }

  lemma {:induction false} SubdividedInv(nodes: seq<Node>, rootIdx: nat, ctx: Context, k: nat, rect: Size)
    requires PageInv(nodes, rootIdx, ctx) && RectFits(ctx, rect)
    requires k < |nodes| && nodes[k].IsEmpty() && Fits(rect, nodes[k].size)
    ensures var r := Subdivided(nodes, k, rect, ctx);
      PageInv(r, rootIdx, ctx) && !r[k].IsEmpty() && r[rootIdx].size == nodes[rootIdx].size
  {
    var r := Subdivided(nodes, k, rect, ctx);
    var n := nodes[k];
    forall j | 0 <= j < |nodes|
      ensures r[j].size == nodes[j].size && (j != k ==> r[j] == nodes[j])
    {
    }
    forall j | 0 <= j < |r| && (j >= |nodes| || r[j] != nodes[j])
      ensures NodeOk(r, j)
    {
      if j >= |nodes| {
        assert r[j].IsEmpty();
      }
    }
    ExtendWellFormed(nodes, r);
  }

  lemma {:induction false} GrownDownInv(nodes: seq<Node>, rootIdx: nat, ctx: Context, rect: Size)
    requires PageInv(nodes, rootIdx, ctx) && RectFits(ctx, rect) && nodes[0].size.w != 0
    requires CanGrowDown(nodes[rootIdx].size, ctx, rect)
    ensures var r := GrownDown(nodes, rootIdx, ctx, rect);
      PageInv(r, |nodes|, ctx) &&
      r[|nodes|].size == Size(Max(nodes[rootIdx].size.w, rect.w),
                              nodes[rootIdx].size.h + rect.h + ctx.spacing.y)
  {
    var r := GrownDown(nodes, rootIdx, ctx, rect);
    var n := |nodes|;
    var root := nodes[rootIdx].size;
    var newW := Max(root.w, rect.w);
    var wrap := root.w < newW && newW - root.w > ctx.spacing.x;
    var rowIdx := if wrap then n + 3 else n + 1;
    assert r[..n] == nodes;
    assert r[rootIdx] == nodes[rootIdx];
    assert r[rowIdx].size == Size(newW, rect.h);
    if wrap {
      assert r[n + 1].size == Size(newW, root.h);
      assert r[n + 2].size == Size(newW - root.w - ctx.spacing.x, root.h);
    }
    forall j | 0 <= j < |r| && (j >= n || r[j] != nodes[j])
      ensures NodeOk(r, j)
    {
    }
    ExtendWellFormed(nodes, r);
  }

  lemma {:induction false} GrownRightInv(nodes: seq<Node>, rootIdx: nat, ctx: Context, rect: Size)
    requires PageInv(nodes, rootIdx, ctx) && RectFits(ctx, rect) && nodes[0].size.w != 0
    requires CanGrowRight(nodes[rootIdx].size, ctx, rect)
    ensures var r := GrownRight(nodes, rootIdx, ctx, rect);
      PageInv(r, |nodes|, ctx) &&
      r[|nodes|].size == Size(nodes[rootIdx].size.w + rect.w + ctx.spacing.x,
                              Max(nodes[rootIdx].size.h, rect.h))
  {
    var r := GrownRight(nodes, rootIdx, ctx, rect);
    var n := |nodes|;
    var root := nodes[rootIdx].size;
    var newH := Max(root.h, rect.h);
    var wrap := root.h < newH && newH - root.h > ctx.spacing.y;
    var colIdx := if wrap then n + 3 else n + 1;
    assert r[..n] == nodes;
    assert r[rootIdx] == nodes[rootIdx];
    assert r[colIdx].size == Size(rect.w, newH);
    if wrap {
      assert r[n + 1].size == Size(root.w, newH);
      assert r[n + 2].size == Size(root.w, newH - root.h - ctx.spacing.y);
    }
    forall j | 0 <= j < |r| && (j >= n || r[j] != nodes[j])
      ensures NodeOk(r, j)
    {
    }
    ExtendWellFormed(nodes, r);
  }

  /**
   * Every accepted insertion keeps the page invariant (so the root stays
   * within the maximum size), leaves the page with at least one rectangle,
   * places the rectangle inside the new root, and does not shrink the root.
   */
  lemma {:induction false} PlaceKeepsInv(nodes: seq<Node>, rootIdx: nat, ctx: Context, rect: Size)
    requires PageInv(nodes, rootIdx, ctx) && RectFits(ctx, rect)
    ensures var p := Place(nodes, rootIdx, ctx, rect);
      p.Some? ==>
        var root := p.value.nodes[p.value.rootIdx].size;
        PageInv(p.value.nodes, p.value.rootIdx, ctx) &&
        p.value.nodes[0].size.w != 0 &&
        Fits(nodes[rootIdx].size, root) &&
        ctx.padding.left <= p.value.pos.x && p.value.pos.x + rect.w <= ctx.padding.left + root.w &&
        ctx.padding.top <= p.value.pos.y && p.value.pos.y + rect.h <= ctx.padding.top + root.h
  {
    if nodes[0].size.w == 0 {
      assert nodes[0 := Node(rect, 0, 0)] == [Node(rect, 0, 0)];
    } else {
      var found := Dfs(nodes, rect, rootIdx, ctx.Origin());
      var root := nodes[rootIdx].size;
      if found.Some? {
        DfsFound(nodes, rect, rootIdx, ctx.Origin());
        SubdividedInv(nodes, rootIdx, ctx, found.value.nodeIdx, rect);
        assert Subdivided(nodes, found.value.nodeIdx, rect, ctx)[0].size == nodes[0].size;
      } else if MustGrowDown(root, ctx, rect) {
        GrownDownInv(nodes, rootIdx, ctx, rect);
        assert GrownDown(nodes, rootIdx, ctx, rect)[0] == nodes[0];
      } else if CanGrowRight(root, ctx, rect) {
        GrownRightInv(nodes, rootIdx, ctx, rect);
        assert GrownRight(nodes, rootIdx, ctx, rect)[0] == nodes[0];
      }
    }
  }

  /**
   * A page that has taken no rectangle yet takes any rectangle that passed the
   * checks, at the origin, and its root becomes exactly that rectangle.
   */
  lemma {:induction false} FirstInsert(ctx: Context, rect: Size)
    requires ctx.Valid() && RectFits(ctx, rect)
    ensures PageInv([FreeNode(0, 0)], 0, ctx)
    ensures Place([FreeNode(0, 0)], 0, ctx, rect) == Some(Placement([Node(rect, 0, 0)], 0, ctx.Origin()))
  {
    assert NodeOk([FreeNode(0, 0)], 0);
    assert [FreeNode(0, 0)][0 := Node(rect, 0, 0)] == [Node(rect, 0, 0)];
  }

  /** The node that receives the rectangle is never again a free leaf, and its new children are the cut-offs. */
  lemma {:induction false} SubdividedChildren(nodes: seq<Node>, k: nat, rect: Size, ctx: Context)
    requires k < |nodes| && Fits(rect, nodes[k].size) && ctx.Valid() && nodes[k].IsEmpty()
    ensures var r := Subdivided(nodes, k, rect, ctx);
      var rightW, bottomH := nodes[k].size.w - rect.w, nodes[k].size.h - rect.h;
      !r[k].IsEmpty() && r[k].size == nodes[k].size &&
      (rightW > ctx.spacing.x <==> r[k].rightIdx != 0) &&
      (rightW > ctx.spacing.x ==>
         r[k].rightIdx == |nodes| && r[|nodes|] == FreeNode(rightW - ctx.spacing.x, rect.h)) &&
      (bottomH > ctx.spacing.y <==> r[k].bottomIdx != 0) &&
      (bottomH > ctx.spacing.y ==>
         r[r[k].bottomIdx] == FreeNode(nodes[k].size.w, bottomH - ctx.spacing.y)) &&
      |r| == |nodes| + (if rightW > ctx.spacing.x then 1 else 0) + (if bottomH > ctx.spacing.y then 1 else 0)
  {
  }

  // ---------------------------------------------------------------------------
  // A page, updated in place

  class Page {
    var nodes: seq<Node>
    var rootIdx: nat

    ghost predicate Valid(ctx: Context)
      reads this
    {
      PageInv(nodes, rootIdx, ctx)
    }

    /** The page has taken at least one rectangle. */
    predicate Seeded()
      reads this
    {
      |nodes| > 0 && nodes[0].size.w != 0
    }

    ghost predicate Accepts(ctx: Context, rect: Size)
      reads this
      requires Valid(ctx) && RectFits(ctx, rect)
    {
      Place(nodes, rootIdx, ctx, rect).Some?
    }

    /** A page with one zero-sized free node. */
    constructor ()
      ensures nodes == [FreeNode(0, 0)] && rootIdx == 0
    {
      nodes := [FreeNode(0, 0)];
      rootIdx := 0;
    }

    /** getSize: the root's size plus the padding. */
    function GetSize(ctx: Context): (s: Size)
      reads this
      requires Valid(ctx)
      ensures !Seeded() ==> s == Size(ctx.padding.left + ctx.padding.right, ctx.padding.top + ctx.padding.bottom)
      ensures Seeded() ==> s.w > ctx.padding.left + ctx.padding.right && s.h > ctx.padding.top + ctx.padding.bottom
    {
      Size(nodes[rootIdx].size.w + ctx.padding.left + ctx.padding.right,
           nodes[rootIdx].size.h + ctx.padding.top + ctx.padding.bottom)
    }

    /** findNode: the search of Dfs, run with an explicit stack of states still to visit. */
    method FindNode(ctx: Context, rect: Size) returns (found: bool, nodeIdx: nat, pos: Position)
      requires Valid(ctx)
      ensures var d := Dfs(nodes, rect, rootIdx, ctx.Origin());
        found == d.Some? && (found ==> StackState(nodeIdx, pos) == d.value)
    {
      ghost var goal := Dfs(nodes, rect, rootIdx, ctx.Origin());
      var stack: seq<StackState> := [];
      pos := ctx.Origin();
      nodeIdx := rootIdx;

      while true
        invariant nodeIdx < |nodes| && StackInBounds(nodes, stack)
        invariant OrElse(Dfs(nodes, rect, nodeIdx, pos), StackDfs(nodes, rect, stack)) == goal
        decreases Weight(nodes, nodeIdx) + StackWeight(nodes, stack)
      {
        var node := nodes[nodeIdx];
        assert NodeOk(nodes, nodeIdx);

        if rect.w <= node.size.w && rect.h <= node.size.h {
          if node.IsEmpty() {
            found := true;
            return;
          } else if node.rightIdx != 0 {
            if node.bottomIdx != 0 {
              var state := StackState(
                node.bottomIdx,
                Position(pos.x, pos.y + node.size.h - nodes[node.bottomIdx].size.h));
              assert (stack + [state])[..|stack|] == stack;
              stack := stack + [state];
            }
            nodeIdx, pos := node.rightIdx, Position(pos.x + node.size.w - nodes[node.rightIdx].size.w, pos.y);
            continue;
          } else if node.bottomIdx != 0 {
            nodeIdx, pos := node.bottomIdx, Position(pos.x, pos.y + node.size.h - nodes[node.bottomIdx].size.h);
            continue;
          }
        }

        if |stack| == 0 {
          found := false;
          return;
        } else {
          var state := stack[|stack| - 1];
          nodeIdx := state.nodeIdx;
          pos := state.pos;
          stack := stack[..|stack| - 1];
        }
      }
    }

    /** subdivideNode, writing the new children into the node vector in place. */
    method SubdivideNode(ctx: Context, nodeIdx: nat, rect: Size)
      requires ctx.Valid() && nodeIdx < |nodes| && nodes[nodeIdx].IsEmpty()
      requires Fits(rect, nodes[nodeIdx].size)
      modifies this
      ensures nodes == Subdivided(old(nodes), nodeIdx, rect, ctx) && rootIdx == old(rootIdx)
    {
      var rightW := nodes[nodeIdx].size.w - rect.w;
      if rightW > ctx.spacing.x {
        nodes := nodes[nodeIdx := nodes[nodeIdx].(rightIdx := |nodes|)];
        nodes := nodes + [FreeNode(rightW - ctx.spacing.x, rect.h)];
      } else {
        nodes := nodes[nodeIdx := nodes[nodeIdx].(rightIdx := 0)];
      }

      var bottomH := nodes[nodeIdx].size.h - rect.h;
      if bottomH > ctx.spacing.y {
        nodes := nodes[nodeIdx := nodes[nodeIdx].(bottomIdx := |nodes|)];
        nodes := nodes + [FreeNode(nodes[nodeIdx].size.w, bottomH - ctx.spacing.y)];
      } else {
        nodes := nodes[nodeIdx := nodes[nodeIdx].(bottomIdx := 0)];
      }
    }

    /** tryInsert: search for a free leaf, and subdivide the one found. */
    method TryInsert(ctx: Context, rect: Size) returns (ok: bool, pos: Position)
      requires Valid(ctx)
      modifies this
      ensures var d := Dfs(old(nodes), rect, old(rootIdx), ctx.Origin());
        ok == d.Some? && rootIdx == old(rootIdx) &&
        (ok ==> DfsFoundLeaf(old(nodes), rect, d.value.nodeIdx) &&
                nodes == Subdivided(old(nodes), d.value.nodeIdx, rect, ctx) && pos == d.value.pos) &&
        (!ok ==> nodes == old(nodes))
    {
      var found, nodeIdx;
      found, nodeIdx, pos := FindNode(ctx, rect);
      if found {
        DfsFound(nodes, rect, rootIdx, ctx.Origin());
        SubdivideNode(ctx, nodeIdx, rect);
        ok := true;
        return;
      }
      ok := false;
    }

    /** growDown, pushing the new nodes and patching their child indices in place. */
    method GrowDown(ctx: Context, rect: Size)
      requires Valid(ctx) && RectFits(ctx, rect) && nodes[0].size.w != 0
      requires CanGrowDown(nodes[rootIdx].size, ctx, rect)
      modifies this
      ensures nodes == GrownDown(old(nodes), old(rootIdx), ctx, rect) && rootIdx == old(|nodes|)
    {
      ghost var before := nodes;
      var nextIdx := |nodes|;
      var newRootIdx := nextIdx;
      nextIdx := nextIdx + 1;

      var rootSize := nodes[rootIdx].size;
      var newRootW := Max(rootSize.w, rect.w);
      nodes := nodes + [Node(Size(newRootW, rootSize.h + rect.h + ctx.spacing.y), rootIdx, 0)];

      if rootSize.w < newRootW && newRootW - rootSize.w > ctx.spacing.x {
        nodes := nodes[|nodes| - 1 := nodes[|nodes| - 1].(rightIdx := nextIdx)];
        nextIdx := nextIdx + 1;
        nodes := nodes + [Node(Size(newRootW, rootSize.h), nextIdx, rootIdx)];
        nextIdx := nextIdx + 1;
        nodes := nodes + [FreeNode(newRootW - rootSize.w - ctx.spacing.x, rootSize.h)];
      }

      nodes := nodes[newRootIdx := nodes[newRootIdx].(bottomIdx := nextIdx)];
      nextIdx := nextIdx + 1;
      nodes := nodes + [Node(Size(newRootW, rect.h), 0, 0)];

      if rect.w < newRootW && newRootW - rect.w > ctx.spacing.x {
        nodes := nodes[|nodes| - 1 := nodes[|nodes| - 1].(rightIdx := nextIdx)];
        nextIdx := nextIdx + 1;
        nodes := nodes + [FreeNode(newRootW - rect.w - ctx.spacing.x, rect.h)];
      }

      rootIdx := newRootIdx;
      assert nodes == GrownDown(before, old(rootIdx), ctx, rect);
    }

    /** growRight, pushing the new nodes and patching their child indices in place. */
    method GrowRight(ctx: Context, rect: Size)
      requires Valid(ctx) && RectFits(ctx, rect) && nodes[0].size.w != 0
      requires CanGrowRight(nodes[rootIdx].size, ctx, rect)
      modifies this
      ensures nodes == GrownRight(old(nodes), old(rootIdx), ctx, rect) && rootIdx == old(|nodes|)
    {
      ghost var before := nodes;
      var nextIdx := |nodes|;
      var newRootIdx := nextIdx;
      nextIdx := nextIdx + 1;

      var rootSize := nodes[rootIdx].size;
      var newRootH := Max(rootSize.h, rect.h);
      nodes := nodes + [Node(Size(rootSize.w + rect.w + ctx.spacing.x, newRootH), 0, rootIdx)];

      if rootSize.h < newRootH && newRootH - rootSize.h > ctx.spacing.y {
        nodes := nodes[|nodes| - 1 := nodes[|nodes| - 1].(bottomIdx := nextIdx)];
        nextIdx := nextIdx + 1;
        nodes := nodes + [Node(Size(rootSize.w, newRootH), rootIdx, nextIdx)];
        nextIdx := nextIdx + 1;
        nodes := nodes + [FreeNode(rootSize.w, newRootH - rootSize.h - ctx.spacing.y)];
      }

      nodes := nodes[newRootIdx := nodes[newRootIdx].(rightIdx := nextIdx)];
      nextIdx := nextIdx + 1;
      nodes := nodes + [Node(Size(rect.w, newRootH), 0, 0)];

      if rect.h < newRootH && newRootH - rect.h > ctx.spacing.y {
        nodes := nodes[|nodes| - 1 := nodes[|nodes| - 1].(bottomIdx := nextIdx)];
        nextIdx := nextIdx + 1;
        nodes := nodes + [FreeNode(rect.w, newRootH - rect.h - ctx.spacing.y)];
      }

      rootIdx := newRootIdx;
      assert nodes == GrownRight(before, old(rootIdx), ctx, rect);
    }

    /** tryGrow: grow down when that keeps the page compact, else right, else fail. */
    method TryGrow(ctx: Context, rect: Size) returns (ok: bool, pos: Position)
      requires Valid(ctx) && RectFits(ctx, rect) && nodes[0].size.w != 0
      modifies this
      ensures var root := old(nodes[rootIdx].size);
        (MustGrowDown(root, ctx, rect) ==>
           ok && nodes == GrownDown(old(nodes), old(rootIdx), ctx, rect) && rootIdx == old(|nodes|) &&
           pos == Position(ctx.padding.left, ctx.padding.top + root.h + ctx.spacing.y)) &&
        (!MustGrowDown(root, ctx, rect) && CanGrowRight(root, ctx, rect) ==>
           ok && nodes == GrownRight(old(nodes), old(rootIdx), ctx, rect) && rootIdx == old(|nodes|) &&
           pos == Position(ctx.padding.left + root.w + ctx.spacing.x, ctx.padding.top)) &&
        (!MustGrowDown(root, ctx, rect) && !CanGrowRight(root, ctx, rect) ==>
           !ok && nodes == old(nodes) && rootIdx == old(rootIdx))
    {
      var root := nodes[rootIdx];
      if MustGrowDown(root.size, ctx, rect) {
        pos := Position(ctx.padding.left, ctx.padding.top + root.size.h + ctx.spacing.y);
        GrowDown(ctx, rect);
        ok := true;
        return;
      }

      if CanGrowRight(root.size, ctx, rect) {
        pos := Position(ctx.padding.left + root.size.w + ctx.spacing.x, ctx.padding.top);
        GrowRight(ctx, rect);
        ok := true;
        return;
      }

      // The source leaves pos as it was; a failed insertion has no position.
      ok, pos := false, Position(0, 0);
    }

    /**
     * Page::insert. Either the page takes the rectangle, as Place says, and
     * keeps its invariant, or it is left as it was.
     */
    method Insert(ctx: Context, rect: Size) returns (ok: bool, pos: Position)
      requires Valid(ctx) && RectFits(ctx, rect)
      modifies this
      ensures Valid(ctx)
      ensures var p := Place(old(nodes), old(rootIdx), ctx, rect);
        ok == p.Some? &&
        (ok ==> nodes == p.value.nodes && rootIdx == p.value.rootIdx && pos == p.value.pos) &&
        (!ok ==> nodes == old(nodes) && rootIdx == old(rootIdx))
      ensures ok ==> Seeded() && Fits(old(nodes[rootIdx].size), nodes[rootIdx].size)
      ensures ok ==> ctx.padding.left <= pos.x && pos.x + rect.w <= ctx.padding.left + nodes[rootIdx].size.w
      ensures ok ==> ctx.padding.top <= pos.y && pos.y + rect.h <= ctx.padding.top + nodes[rootIdx].size.h
    {
      PlaceKeepsInv(nodes, rootIdx, ctx, rect);
      if nodes[0].size.w == 0 {
        nodes := nodes[0 := Node(rect, 0, 0)];
        pos := ctx.Origin();
        ok := true;
        return;
      }

      ok, pos := TryInsert(ctx, rect);
      if !ok {
        ok, pos := TryGrow(ctx, rect);
      }
    }
  }

  /** The leaf a successful search returns: a free leaf the rectangle fits. */
  predicate DfsFoundLeaf(nodes: seq<Node>, rect: Size, k: nat) {
    k < |nodes| && nodes[k].IsEmpty() && Fits(rect, nodes[k].size)
  }

  // ---------------------------------------------------------------------------
  // The packer

  class RectPacker {
    const ctx: Context
    var pages: seq<Page>

    /**
     * Every page keeps its invariant, no page appears twice, and a page that
     * took no rectangle yet can only be the packer's single first page.
     */
    ghost predicate Valid()
      reads this, pages
    {
      ctx.Valid() && |pages| >= 1 &&
      (forall i :: 0 <= i < |pages| ==> pages[i].Valid(ctx)) &&
      (forall i, j :: 0 <= i < j < |pages| ==> pages[i] != pages[j]) &&
      (forall i :: 0 <= i < |pages| && !pages[i].Seeded() ==> |pages| == 1)
    }

    /** A packer with one empty page and the clamped limits. */
    constructor (maxPageWidth: int, maxPageHeight: int, rectsSpacing: Spacing, pagePadding: Padding)
      ensures Valid() && |pages| == 1 && fresh(pages[0]) && !pages[0].Seeded()
      ensures pages[0].nodes == [FreeNode(0, 0)] && pages[0].rootIdx == 0
      ensures ClampedFrom(ctx, maxPageWidth, maxPageHeight, rectsSpacing, pagePadding)
    {
      var c := NewContext(maxPageWidth, maxPageHeight, rectsSpacing, pagePadding);
      var page := new Page();
      ctx := c;
      pages := [page];
      new;
      assert NodeOk(page.nodes, 0);
    }

    /** getNumPages: there is always at least one page. */
    function NumPages(): (n: nat)
      reads this, pages
      requires Valid()
      ensures n >= 1
    {
      |pages|
    }

    /** getPageSize: an empty page is as large as its padding, any other one is larger. */
    function PageSize(pageIndex: nat): (s: Size)
      reads this, pages
      requires Valid() && pageIndex < |pages|
      ensures !pages[pageIndex].Seeded() ==>
        s == Size(ctx.padding.left + ctx.padding.right, ctx.padding.top + ctx.padding.bottom)
      ensures pages[pageIndex].Seeded() ==>
        s.w > ctx.padding.left + ctx.padding.right && s.h > ctx.padding.top + ctx.padding.bottom
    {
      pages[pageIndex].GetSize(ctx)
    }

    /** The pages were not touched between the two states. */
    twostate predicate PagesUnchanged()
      reads this, pages
    {
      pages == old(pages) &&
      forall j :: 0 <= j < |pages| ==> pages[j].nodes == old(pages[j].nodes) && pages[j].rootIdx == old(pages[j].rootIdx)
    }

    /**
     * The loop of insert over the existing pages: the first page that takes
     * the rectangle gets it; when none does, nothing changes.
     */
    method InsertIntoPages(rect: Size) returns (ok: bool, pos: Position, i: nat)
      requires Valid() && RectFits(ctx, rect)
      modifies pages
      ensures Valid() && pages == old(pages)
      ensures !ok ==> PagesUnchanged() && forall j :: 0 <= j < |pages| ==> old(!pages[j].Accepts(ctx, rect))
      ensures ok ==>
        i < |pages| &&
        (forall j :: 0 <= j < i ==> old(!pages[j].Accepts(ctx, rect))) &&
        old(pages[i].Accepts(ctx, rect)) &&
        (var p := old(Place(pages[i].nodes, pages[i].rootIdx, ctx, rect)).value;
         pages[i].nodes == p.nodes && pages[i].rootIdx == p.rootIdx && pos == p.pos) &&
        (forall j :: 0 <= j < |pages| && j != i ==>
           pages[j].nodes == old(pages[j].nodes) && pages[j].rootIdx == old(pages[j].rootIdx)) &&
        ctx.padding.left <= pos.x && pos.x + rect.w + ctx.padding.right <= PageSize(i).w &&
        ctx.padding.top <= pos.y && pos.y + rect.h + ctx.padding.bottom <= PageSize(i).h
      ensures forall j :: 0 <= j < |pages| ==> Fits(old(PageSize(j)), PageSize(j))
    {
      i := 0;
      while i < |pages|
        invariant 0 <= i <= |pages| && Valid() && PagesUnchanged()
        invariant forall j :: 0 <= j < |pages| ==> PageSize(j) == old(PageSize(j))
        invariant forall j :: 0 <= j < i ==> Place(old(pages[j].nodes), old(pages[j].rootIdx), ctx, rect).None?
      {
        ok, pos := InsertIntoPage(i, rect);
        if ok {
          return;
        }
        i := i + 1;
      }
      ok, pos := false, Position(0, 0);
    }

    /** One turn of that loop: page i tries the rectangle and the other pages stay as they are. */
    method InsertIntoPage(i: nat, rect: Size) returns (ok: bool, pos: Position)
      requires Valid() && RectFits(ctx, rect) && i < |pages|
      modifies pages[i]
      ensures Valid()
      ensures ok == Place(old(pages[i].nodes), old(pages[i].rootIdx), ctx, rect).Some?
      ensures !ok ==> PagesUnchanged() && forall j :: 0 <= j < |pages| ==> PageSize(j) == old(PageSize(j))
      ensures ok ==>
        (var p := old(Place(pages[i].nodes, pages[i].rootIdx, ctx, rect)).value;
         pages[i].nodes == p.nodes && pages[i].rootIdx == p.rootIdx && pos == p.pos) &&
        ctx.padding.left <= pos.x && pos.x + rect.w + ctx.padding.right <= PageSize(i).w &&
        ctx.padding.top <= pos.y && pos.y + rect.h + ctx.padding.bottom <= PageSize(i).h
      ensures forall j :: 0 <= j < |pages| && j != i ==>
        pages[j].nodes == old(pages[j].nodes) && pages[j].rootIdx == old(pages[j].rootIdx)
      ensures forall j :: 0 <= j < |pages| ==> Fits(old(PageSize(j)), PageSize(j))
    {
      ok, pos := pages[i].Insert(ctx, rect);
    }

    /** The end of insert: no page took the rectangle, so a new page takes it at the origin. */
    method InsertIntoNewPage(rect: Size) returns (pos: Position)
      requires Valid() && RectFits(ctx, rect)
      requires forall j :: 0 <= j < |pages| ==> !pages[j].Accepts(ctx, rect)
      modifies this
      ensures Valid()
      ensures |pages| == old(|pages|) + 1 && pages[..old(|pages|)] == old(pages) && fresh(pages[old(|pages|)])
      ensures pages[old(|pages|)].nodes == [Node(rect, 0, 0)] && pages[old(|pages|)].rootIdx == 0
      ensures pos == ctx.Origin()
    {
      var page := new Page();
      FirstInsert(ctx, rect);
      var ok;
      ok, pos := page.Insert(ctx, rect);
      assert forall j :: 0 <= j < |pages| ==> pages[j].Seeded();
      pages := pages + [page];
    }

    /**
     * insert: reject bad sizes, in this order, leaving the packer as it was;
     * otherwise put the rectangle into the first page that takes it, or into
     * a new page appended when none does. The rectangle lands inside its page's
     * padding, and no page shrinks.
     */
    method Insert(width: int, height: int) returns (result: InsertResult)
      requires Valid()
      modifies this, pages
      ensures Valid()
      ensures (width < 0 || height < 0) ==> result.status == NegativeSize
      ensures (width >= 0 && height >= 0 && (width == 0 || height == 0)) ==> result.status == ZeroSize
      ensures (width > 0 && height > 0 && (width > ctx.maxSize.w || height > ctx.maxSize.h)) ==>
        result.status == RectTooBig
      ensures result.status.Ok? <==> (0 < width <= ctx.maxSize.w && 0 < height <= ctx.maxSize.h)
      ensures !result.status.Ok? ==> PagesUnchanged()
      ensures result.status.Ok? ==>
        var rect, i, n := Size(width, height), result.pageIndex, old(|pages|);
        i < |pages| && i <= n <= |pages| && pages[..n] == old(pages) &&
        (forall j :: 0 <= j < i ==> old(!pages[j].Accepts(ctx, rect))) &&
        (forall j :: 0 <= j < n && j != i ==>
           pages[j].nodes == old(pages[j].nodes) && pages[j].rootIdx == old(pages[j].rootIdx)) &&
        (i < n ==>
           |pages| == n && old(pages[i].Accepts(ctx, rect)) &&
           var p := old(Place(pages[i].nodes, pages[i].rootIdx, ctx, rect)).value;
           pages[i].nodes == p.nodes && pages[i].rootIdx == p.rootIdx && result.pos == p.pos) &&
        (i == n ==>
           |pages| == n + 1 && fresh(pages[i]) &&
           pages[i].nodes == [Node(rect, 0, 0)] && pages[i].rootIdx == 0 && result.pos == ctx.Origin())
      ensures result.status.Ok? ==>
        var s := PageSize(result.pageIndex);
        ctx.padding.left <= result.pos.x && result.pos.x + width + ctx.padding.right <= s.w &&
        ctx.padding.top <= result.pos.y && result.pos.y + height + ctx.padding.bottom <= s.h
      ensures forall j :: 0 <= j < old(|pages|) ==> Fits(old(PageSize(j)), PageSize(j))
    {
      if width < 0 || height < 0 {
        return InsertResult(NegativeSize, Position(0, 0), 0);
      }
      if width == 0 || height == 0 {
        return InsertResult(ZeroSize, Position(0, 0), 0);
      }
      if width > ctx.maxSize.w || height > ctx.maxSize.h {
        return InsertResult(RectTooBig, Position(0, 0), 0);
      }

      var rect := Size(width, height);
      var ok, pos, i := InsertIntoPages(rect);
      if ok {
        return InsertResult(InsertStatus.Ok, pos, i);
      }

      pos := InsertIntoNewPage(rect);
      result := InsertResult(InsertStatus.Ok, pos, |pages| - 1);
    }
  }
}
