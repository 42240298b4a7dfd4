/**
 * The demo's bitmap canvas (demo/bitmap_canvas.cpp): a w x h buffer of
 * palette indices, row after row, into which rectangles are drawn as a fill
 * in a base colour with a one-pixel border in the darker colour.
 *
 * Pixel p of the buffer is at row p / w and column p % w.
 */
module BitmapCanvas {
  import opened Bytes
  import opened Rects
  import opened Palette

  /** White, then a fill and a stroke colour per base colour. */
  const NumPngColors: nat := 1 + NumColors * 2

  /** C's %, which truncates towards zero: the remainder takes the sign of a. */
  function CRem(a: int, b: int): (r: int)
    requires b > 0
    ensures a >= 0 ==> 0 <= r < b
    ensures a < 0 ==> -b < r <= 0
    ensures a >= 0 ==> r == a % b
    ensures a < 0 ==> -r == (-a) % b
  {
    if a >= 0 then a % b else -((-a) % b)
  }

  /** getFillColorIdx, including the wrap-around of its uint8_t result. */
  function FillColorIdx(rectIdx: int): (r: byte)
    ensures rectIdx >= 0 ==> 1 <= r as int <= NumColors && r as int == 1 + rectIdx % NumColors
  {
    ((1 + CRem(rectIdx, NumColors)) % 256) as byte
  }

  /** getStrokeColorIdx: the darker colour that pairs with the fill colour. */
  function StrokeColorIdx(rectIdx: int): (r: byte)
    ensures rectIdx >= 0 ==>
      r as int == FillColorIdx(rectIdx) as int + NumColors &&
      NumColors + 1 <= r as int <= 2 * NumColors < NumPngColors
  {
    ((FillColorIdx(rectIdx) as int + NumColors) % 256) as byte
  }

  /**
   * A rectangle's fill and stroke are the palette entries of its base colour
   * and of that colour darkened, and neither is the white background.
   */
  lemma {:induction false} ColorIndicesPickPalette(rectIdx: int)
    requires rectIdx >= 0
    ensures var f, s := FillColorIdx(rectIdx) as int, StrokeColorIdx(rectIdx) as int;
      0 < f < s < NumPngColors &&
      PngPalette()[f] == Colors[rectIdx % NumColors] &&
      PngPalette()[s] == AdjustBrightness(Colors[rectIdx % NumColors], -0x33)
  {
  }

  function Pow2(n: nat): nat {
    if n == 0 then 1 else 2 * Pow2(n - 1)
  }

  /**
   * getPaletteBitDepth: the smallest PNG palette depth of 1, 2, 4 and 8 bits
   * whose 2^depth entries hold numColors colours, or 8 when none does.
   */
  function PaletteBitDepth(numColors: int): (d: nat)
    ensures d == 1 || d == 2 || d == 4 || d == 8
    ensures d == 8 || numColors <= Pow2(d)
    ensures d == 1 || numColors > Pow2(d / 2)
  {
    if numColors <= 2 then 1
    else if numColors <= 4 then 2
    else if numColors <= 16 then 4
    else 8
  }

  /** The demo's 13 colours need a 4-bit palette. */
  lemma {:induction false} DemoBitDepth()
    ensures PaletteBitDepth(NumPngColors) == 4
  {
  }

  // ---------------------------------------------------------------------------
  // Pixel geometry

  predicate InRect(row: int, col: int, r: Rect) {
    r.y <= row < r.y + r.h && r.x <= col < r.x + r.w
  }

  /** The one-pixel border of a rectangle: its first and last row and column. */
  predicate OnBorder(row: int, col: int, r: Rect) {
    InRect(row, col, r) &&
    (row == r.y || row == r.y + r.h - 1 || col == r.x || col == r.x + r.w - 1)
  }

  /** A pixel after drawing rectangle r: the border in the stroke colour, the inside in the fill colour. */
  function Painted(before: byte, row: int, col: int, r: Rect, fill: byte, stroke: byte): byte {
    if OnBorder(row, col, r) then stroke
    else if InRect(row, col, r) then fill
    else before
  }

  /** A pixel strictly inside the rectangle, off its border, takes the fill colour. */
  lemma {:induction false} InteriorIsFilled(row: int, col: int, r: Rect, before: byte, fill: byte, stroke: byte)
    requires r.y < row < r.y + r.h - 1 && r.x < col < r.x + r.w - 1
    ensures Painted(before, row, col, r, fill, stroke) == fill
  {
  }

  /** A rectangle with no width or no height paints nothing. */
  lemma {:induction false} EmptyRectPaintsNothing(row: int, col: int, r: Rect, before: byte, fill: byte, stroke: byte)
    requires r.w <= 0 || r.h <= 0
    ensures Painted(before, row, col, r, fill, stroke) == before
  {
  }

  lemma {:induction false} MulLe(a: int, b: int, w: nat)
    requires a <= b
    ensures a * w <= b * w
  {
    assert b * w - a * w == (b - a) * w;
  }

  /**
   * The buffer positions row * w + x .. row * w + x + n - 1 are exactly the
   * pixels of that row with a column in x .. x + n - 1.
   */
  lemma {:induction false} RowSpan(p: int, row: int, x: int, n: int, w: nat)
    requires w > 0 && p >= 0 && row >= 0 && x >= 0 && n >= 0 && x + n <= w
    ensures (row * w + x <= p < row * w + x + n) <==> (p / w == row && x <= p % w < x + n)
  {
    var q, m := p / w, p % w;
    assert p == q * w + m && 0 <= m < w;
    if row * w + x <= p < row * w + x + n {
      if q < row {
        MulLe(q + 1, row, w);
      } else if q > row {
        MulLe(row + 1, q, w);
      }
    }
  }

  /** Row row of a w-wide buffer of h rows ends inside the buffer. */
  lemma {:induction false} RowInBuffer(row: int, w: nat, h: nat)
    requires 0 <= row < h
    ensures row * w + w <= w * h
  {
    MulLe(row + 1, h, w);
    assert (row + 1) * w == row * w + w;
  }

  // ---------------------------------------------------------------------------
  // The canvas

  class Canvas {
    const w: nat
    const h: nat
    const data: array<byte>

    ghost predicate Valid()
      reads this
    {
      w > 0 && h > 0 && data.Length == w * h
    }

    /** The constructor: a w * h buffer of background pixels. */
    constructor (w: int, h: int)
      requires w > 0 && h > 0
      ensures Valid() && this.w == w && this.h == h && fresh(data)
      ensures forall p :: 0 <= p < data.Length ==> data[p] == 0
    {
      this.w := w;
      this.h := h;
      data := new byte[w * h](_ => 0);
    }

    /** memset: n consecutive pixels from start take the colour. */
    method Memset(start: nat, n: nat, color: byte)
      requires start + n <= data.Length
      modifies data
      ensures forall p :: 0 <= p < data.Length ==>
        data[p] == if start <= p < start + n then color else old(data[p])
    {
      var k := 0;
      while k < n
        invariant 0 <= k <= n
        invariant forall p :: 0 <= p < data.Length ==>
          data[p] == if start <= p < start + k then color else old(data[p])
      {
        data[start + k] := color;
        k := k + 1;
      }
    }

    /** fillRect: exactly the pixels of the rectangle take the colour. */
    method FillRect(r: Rect, color: byte)
      requires Valid() && 0 <= r.x && r.w >= 0 && r.x + r.w <= w && 0 <= r.y && r.h >= 0 && r.y + r.h <= h
      modifies data
      ensures forall p :: 0 <= p < data.Length ==>
        data[p] == if InRect(p / w, p % w, r) then color else old(data[p])
    {
      var i := 0;
      while i < r.h
        invariant 0 <= i <= r.h
        invariant forall p :: 0 <= p < data.Length ==>
          data[p] == if FilledRows(p / w, p % w, r, i) then color else old(data[p])
      {
        var dst: nat := (r.y + i) * w + r.x;
        RowInBuffer(r.y + i, w, h);
        Memset(dst, r.w, color);
        forall p | 0 <= p < data.Length
          ensures data[p] == if FilledRows(p / w, p % w, r, i + 1) then color else old(data[p])
        {
          FillStep(p, r, w, i);
        }
        i := i + 1;
      }
    }

    /**
     * strokeRect, drawing the bottom row only when the rectangle has one: the
     * border of the rectangle takes the colour and nothing else changes.
     */
    method StrokeRect(r: Rect, color: byte)
      requires Valid() && 0 <= r.x && r.w >= 1 && r.x + r.w <= w && 0 <= r.y && r.h >= 1 && r.y + r.h <= h
      modifies data
      ensures forall p :: 0 <= p < data.Length ==>
        data[p] == if OnBorder(p / w, p % w, r) then color else old(data[p])
    {
      ghost var orig := data[..];
      StrokeTop(r, color, orig);
      var dst: nat := (r.y + 1) * w + r.x;
      var i := 0;
      while i < r.h - 2
        invariant 0 <= i && (r.h >= 2 ==> i <= r.h - 2) && (r.h < 2 ==> i == 0)
        invariant dst == (r.y + 1 + i) * w + r.x
        invariant StrokedUpTo(r, color, i, orig)
      {
        StrokeSides(r, color, i, dst, orig);
        NextRow(r.y + 1 + i, r.x, w);
        dst := dst + w;
        i := i + 1;
      }
      if r.h >= 2 {
        StrokeBottom(r, color, dst, orig);
      } else {
        forall p | 0 <= p < data.Length
          ensures data[p] == if OnBorder(p / w, p % w, r) then color else orig[p]
        {
          assert data[p] == if StrokedRows(p / w, p % w, r, 0) then color else orig[p];
        }
      }
    }

    /** The rows of the border stroked so far hold the colour; the rest is as in orig. */
    ghost predicate StrokedUpTo(r: Rect, color: byte, i: int, orig: seq<byte>)
      reads this, data
    {
      w > 0 && |orig| == data.Length &&
      forall p :: 0 <= p < data.Length ==>
        data[p] == if StrokedRows(p / w, p % w, r, i) then color else orig[p]
    }

    /** The top row of the outline. */
    method StrokeTop(r: Rect, color: byte, ghost orig: seq<byte>)
      requires Valid() && 0 <= r.x && r.w >= 1 && r.x + r.w <= w && 0 <= r.y && r.h >= 1 && r.y + r.h <= h
      requires orig == data[..]
      modifies data
      ensures StrokedUpTo(r, color, 0, orig)
    {
      var dst: nat := r.y * w + r.x;
      RowInBuffer(r.y, w, h);
      Memset(dst, r.w, color);
      forall p | 0 <= p < data.Length
        ensures data[p] == if StrokedRows(p / w, p % w, r, 0) then color else orig[p]
      {
        TopRowStep(p, r, w);
      }
    }

    /** The two side pixels of the row below the top row and i rows further down. */
    method StrokeSides(r: Rect, color: byte, i: nat, dst: nat, ghost orig: seq<byte>)
      requires Valid() && 0 <= r.x && r.w >= 1 && r.x + r.w <= w && 0 <= r.y && r.h >= 2 && r.y + r.h <= h
      requires i < r.h - 2 && dst == (r.y + 1 + i) * w + r.x
      requires StrokedUpTo(r, color, i, orig)
      modifies data
      ensures StrokedUpTo(r, color, i + 1, orig)
    {
      RowInBuffer(r.y + 1 + i, w, h);
      data[dst] := color;
      data[dst + r.w - 1] := color;
      forall p | 0 <= p < data.Length
        ensures data[p] == if StrokedRows(p / w, p % w, r, i + 1) then color else orig[p]
      {
        SideStep(p, r, w, i);
      }
    }

    /** The bottom row of an outline at least two rows high. */
    method StrokeBottom(r: Rect, color: byte, dst: nat, ghost orig: seq<byte>)
      requires Valid() && 0 <= r.x && r.w >= 1 && r.x + r.w <= w && 0 <= r.y && r.h >= 2 && r.y + r.h <= h
      requires dst == (r.y + r.h - 1) * w + r.x
      requires StrokedUpTo(r, color, r.h - 2, orig)
      modifies data
      ensures forall p :: 0 <= p < data.Length ==>
        data[p] == if OnBorder(p / w, p % w, r) then color else orig[p]
    {
      RowInBuffer(r.y + r.h - 1, w, h);
      Memset(dst, r.w, color);
      forall p | 0 <= p < data.Length
        ensures data[p] == if OnBorder(p / w, p % w, r) then color else orig[p]
      {
        BottomRowStep(p, r, w);
      }
    }

    /**
     * drawRect: a rectangle inside the canvas is filled with its base colour
     * and outlined with the darker one; a rectangle without area changes nothing.
     */
    method DrawRect(r: Rect, rectIdx: int)
      requires Valid() && 0 <= r.x && r.w >= 0 && r.x + r.w <= w && 0 <= r.y && r.h >= 0 && r.y + r.h <= h
      requires rectIdx >= 0
      modifies data
      ensures forall p :: 0 <= p < data.Length ==>
        data[p] == Painted(old(data[p]), p / w, p % w, r, FillColorIdx(rectIdx), StrokeColorIdx(rectIdx))
    {
      if r.w == 0 || r.h == 0 {
        return;
      }

      FillRect(r, FillColorIdx(rectIdx));
      StrokeRect(r, StrokeColorIdx(rectIdx));
    }
  }

  lemma {:induction false} NextRow(row: int, x: int, w: nat)
    ensures row * w + x + w == (row + 1) * w + x
  {
  }

  lemma {:induction false} RowsLater(row: int, n: int, w: nat)
    ensures row * w + w * n == (row + n) * w
  {
  }

  lemma {:induction false} TopRowStep(p: int, r: Rect, w: nat)
    requires w > 0 && p >= 0 && 0 <= r.x && r.w >= 1 && r.x + r.w <= w && 0 <= r.y
    ensures StrokedRows(p / w, p % w, r, 0) <==> r.y * w + r.x <= p < r.y * w + r.x + r.w
  {
    RowSpan(p, r.y, r.x, r.w, w);
  }

  lemma {:induction false} SideStep(p: int, r: Rect, w: nat, i: nat)
    requires w > 0 && p >= 0 && 0 <= r.x && r.w >= 1 && r.x + r.w <= w && 0 <= r.y
    ensures var dst := (r.y + 1 + i) * w + r.x;
      StrokedRows(p / w, p % w, r, i + 1) <==>
        StrokedRows(p / w, p % w, r, i) || p == dst || p == dst + r.w - 1
  {
    RowSpan(p, r.y + 1 + i, r.x, 1, w);
    RowSpan(p, r.y + 1 + i, r.x + r.w - 1, 1, w);
  }

  lemma {:induction false} BottomRowStep(p: int, r: Rect, w: nat)
    requires w > 0 && p >= 0 && 0 <= r.x && r.w >= 1 && r.x + r.w <= w && 0 <= r.y && r.h >= 2
    ensures var dst := (r.y + 1 + (r.h - 2)) * w + r.x;
      OnBorder(p / w, p % w, r) <==> StrokedRows(p / w, p % w, r, r.h - 2) || dst <= p < dst + r.w
  {
    RowSpan(p, r.y + r.h - 1, r.x, r.w, w);
  }

  /** The pixels a fill has set after i rows. */
  predicate FilledRows(row: int, col: int, r: Rect, i: int) {
    r.y <= row < r.y + i && r.x <= col < r.x + r.w
  }

  lemma {:induction false} FillStep(p: int, r: Rect, w: nat, i: nat)
    requires w > 0 && p >= 0 && 0 <= r.x && r.w >= 0 && r.x + r.w <= w && 0 <= r.y
    ensures var dst := (r.y + i) * w + r.x;
      FilledRows(p / w, p % w, r, i + 1) <==> FilledRows(p / w, p % w, r, i) || dst <= p < dst + r.w
  {
    RowSpan(p, r.y + i, r.x, r.w, w);
  }

  /** The pixels a stroke has set after the top row and i rows of side pixels. */
  predicate StrokedRows(row: int, col: int, r: Rect, i: int) {
    r.x <= col < r.x + r.w &&
    (row == r.y || (r.y + 1 <= row < r.y + 1 + i && (col == r.x || col == r.x + r.w - 1)))
  }

  // ---------------------------------------------------------------------------
  // strokeRect as written: the bottom row is drawn even for a one-row rectangle

  /** Positions start .. start + n - 1: what one memset writes. */
  function Span(start: int, n: nat): (s: seq<int>)
    ensures |s| == n && forall k :: 0 <= k < n ==> s[k] == start + k
  {
    seq(n, k => start + k)
  }

  /** The first and last pixel of rows, count rows from start on. */
  function Sides(start: int, w: nat, rw: int, count: nat): (s: seq<int>)
    ensures |s| == 2 * count
    decreases count
  {
    if count == 0 then [] else [start, start + rw - 1] + Sides(start + w, w, rw, count - 1)
  }

  /**
   * The buffer positions strokeRect writes, in order: the top row, the side
   * pixels of rect.h - 2 rows (no row when that is negative), then a full row
   * right after them, whatever the height.
   */
  function StrokeWritesAsWritten(r: Rect, w: nat): seq<int>
    requires r.w >= 0
  {
    var top := r.y * w + r.x;
    var middle: nat := if r.h >= 2 then r.h - 2 else 0;
    Span(top, r.w) + Sides(top + w, w, r.w, middle) + Span(top + w * (1 + middle), r.w)
  }

  /**
   * For a one-row rectangle the last memset writes the row below it: those
   * pixels lie outside the rectangle, and past the end of the buffer when the
   * rectangle is on the canvas's last row.
   */
  lemma {:induction false} StrokeAsWrittenOneRow(r: Rect, w: nat, h: nat)
    requires w > 0 && 0 <= r.x && r.w >= 1 && r.x + r.w <= w && 0 <= r.y && r.h == 1 && r.y + r.h <= h
    ensures var s := StrokeWritesAsWritten(r, w);
      var last := s[|s| - 1];
      last == (r.y + 1) * w + r.x + r.w - 1 && last / w == r.y + 1 &&
      !InRect(last / w, last % w, r) &&
      (r.y + 1 == h ==> last >= w * h)
  {
    var s := StrokeWritesAsWritten(r, w);
    var last := s[|s| - 1];
    assert (r.y + 1) * w == r.y * w + w;
    RowSpan(last, r.y + 1, r.x, r.w, w);
  }

  /** A one-row, four-pixel canvas: the stroke writes positions 4 .. 7 of a 4-byte buffer. */
  lemma {:induction false} StrokeAsWrittenOverruns()
    ensures StrokeWritesAsWritten(Rect(0, 0, 4, 1), 4) == [0, 1, 2, 3, 4, 5, 6, 7]
  {
  }

  /** Every position of s is a border pixel of r. */
  predicate AllOnBorder(s: seq<int>, w: nat, r: Rect)
    requires w > 0
  {
    forall k :: 0 <= k < |s| ==> OnBorder(s[k] / w, s[k] % w, r)
  }

  lemma {:induction false} AllOnBorderConcat(a: seq<int>, b: seq<int>, w: nat, r: Rect)
    requires w > 0 && AllOnBorder(a, w, r) && AllOnBorder(b, w, r)
    ensures AllOnBorder(a + b, w, r)
  {
    forall k | 0 <= k < |a + b|
      ensures OnBorder((a + b)[k] / w, (a + b)[k] % w, r)
    {
      if k >= |a| {
        assert (a + b)[k] == b[k - |a|];
      }
    }
  }

  lemma {:induction false} SidesOnBorder(r: Rect, w: nat, row: int, count: nat)
    requires w > 0 && 0 <= r.x && r.w >= 1 && r.x + r.w <= w && 0 <= r.y
    requires r.y + 1 <= row && row + count <= r.y + r.h - 1
    ensures AllOnBorder(Sides(row * w + r.x, w, r.w, count), w, r)
    decreases count
  {
    if count > 0 {
      var start := row * w + r.x;
      NextRow(row, r.x, w);
      SidesOnBorder(r, w, row + 1, count - 1);
      RowSpan(start, row, r.x, 1, w);
      RowSpan(start + r.w - 1, row, r.x + r.w - 1, 1, w);
      var tail := Sides(start + w, w, r.w, count - 1);
      assert Sides(start, w, r.w, count) == [start, start + r.w - 1] + tail;
      assert AllOnBorder(tail, w, r);
    }
  }

  lemma {:induction false} RowOnBorder(r: Rect, w: nat, row: int)
    requires w > 0 && 0 <= r.x && r.w >= 1 && r.x + r.w <= w && 0 <= r.y && r.h >= 1
    requires row == r.y || row == r.y + r.h - 1
    ensures AllOnBorder(Span(row * w + r.x, r.w), w, r)
  {
    var s := Span(row * w + r.x, r.w);
    forall k | 0 <= k < |s|
      ensures OnBorder(s[k] / w, s[k] % w, r)
    {
      RowSpan(s[k], row, r.x, r.w, w);
    }
  }

  /**
   * For a rectangle of two rows or more, every position strokeRect writes is a
   * border pixel of the rectangle, as StrokeRect states.
   */
  lemma {:induction false} StrokeAsWrittenOnBorder(r: Rect, w: nat)
    requires w > 0 && 0 <= r.x && r.w >= 1 && r.x + r.w <= w && 0 <= r.y && r.h >= 2
    ensures AllOnBorder(StrokeWritesAsWritten(r, w), w, r)
  {
    var top := r.y * w + r.x;
    var middle := r.h - 2;
    var bottom := top + w * (1 + middle);
    NextRow(r.y, r.x, w);
    RowsLater(r.y, 1 + middle, w);
    SidesOnBorder(r, w, r.y + 1, middle);
    RowOnBorder(r, w, r.y);
    RowOnBorder(r, w, r.y + r.h - 1);
    var a, b, c := Span(top, r.w), Sides(top + w, w, r.w, middle), Span(bottom, r.w);
    assert StrokeWritesAsWritten(r, w) == a + b + c;
    AllOnBorderConcat(a, b, w, r);
    AllOnBorderConcat(a + b, c, w, r);
  }
}
