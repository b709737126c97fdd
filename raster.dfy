/**
 * Rectangular pixel loops over 16-bit-per-pixel planes in video memory.
 * Every such loop in the MB86292 (rectangle fill, block copy, frame-buffer
 * commit) walks its rectangle row by row and, inside a row, column by
 * column; `Points` is that traversal, and the fills and copies are folds
 * of single word writes along it.
 */
module Raster {
  import opened BitOps
  import opened VideoMemory

  datatype Point = Point(y: int, x: int)

  /** Rows [y0, y1) by columns [x0, x1); an end not above its start is an empty range. */
  datatype Grid = Grid(y0: int, y1: int, x0: int, x1: int)

  /** The row at which a `for (y = y0; y < y1; y++)` loop stops. */
  function YEnd(g: Grid): int
  {
    if g.y1 > g.y0 then g.y1 else g.y0
  }

  /** The column at which a `for (x = x0; x < x1; x++)` loop stops. */
  function XEnd(g: Grid): int
  {
    if g.x1 > g.x0 then g.x1 else g.x0
  }

  predicate InGrid(g: Grid, p: Point)
  {
    g.y0 <= p.y < g.y1 && g.x0 <= p.x < g.x1
  }

  /** Strict row-major order. */
  predicate Before(p: Point, q: Point)
  {
    p.y < q.y || (p.y == q.y && p.x < q.x)
  }

  /** A state (y, x) that the two nested loops over `g` can reach. */
  predicate Position(g: Grid, y: int, x: int)
  {
    && g.y0 <= y <= YEnd(g)
    && g.x0 <= x <= XEnd(g)
    && (y < YEnd(g) || x == g.x0)
  }

  /**
   * The points the nested loops over `g` have visited when they stand at
   * row `y`, column `x`: exactly the points of `g` before (y, x), in
   * increasing row-major order.
   */
  function Points(g: Grid, y: int, x: int): (r: seq<Point>)
    requires Position(g, y, x)
    ensures forall i :: 0 <= i < |r| ==> InGrid(g, r[i]) && Before(r[i], Point(y, x))
    ensures forall i, j :: 0 <= i < j < |r| ==> Before(r[i], r[j])
    ensures forall p :: InGrid(g, p) && Before(p, Point(y, x)) ==> p in r
    decreases y - g.y0, x - g.x0
  {
    if x > g.x0 then Points(g, y, x - 1) + [Point(y, x - 1)]
    else if y > g.y0 then Points(g, y - 1, XEnd(g))
    else []
  }

  /** Finishing a row and starting the next visit the same points. */
  lemma NextRow(g: Grid, y: int)
    requires g.y0 <= y < YEnd(g)
    ensures Position(g, y, XEnd(g)) && Position(g, y + 1, g.x0)
    ensures Points(g, y + 1, g.x0) == Points(g, y, XEnd(g))
  {
  }

  /** Every point of `g`, in the order the nested loops visit them. */
  function AllPoints(g: Grid): (r: seq<Point>)
    ensures forall i :: 0 <= i < |r| ==> InGrid(g, r[i])
    ensures forall p :: InGrid(g, p) ==> p in r
  {
    Points(g, YEnd(g), g.x0)
  }

  /** The loops visit (rows) x (columns) points. */
  lemma {:induction false} PointsCount(g: Grid, y: int, x: int)
    requires Position(g, y, x)
    ensures |Points(g, y, x)| == (y - g.y0) * (XEnd(g) - g.x0) + (x - g.x0)
    decreases y - g.y0, x - g.x0
  {
    if x > g.x0 {
      PointsCount(g, y, x - 1);
    } else if y > g.y0 {
      PointsCount(g, y - 1, XEnd(g));
      assert (y - g.y0) * (XEnd(g) - g.x0) == (y - 1 - g.y0) * (XEnd(g) - g.x0) + (XEnd(g) - g.x0);
    }
  }

  lemma AllPointsCount(g: Grid)
    ensures |AllPoints(g)| == (YEnd(g) - g.y0) * (XEnd(g) - g.x0)
  {
    PointsCount(g, YEnd(g), g.x0);
  }

  /** The points are pairwise distinct: no pixel is visited twice. */
  lemma AllPointsDistinct(g: Grid)
    ensures forall i, j :: 0 <= i < j < |AllPoints(g)| ==> AllPoints(g)[i] != AllPoints(g)[j]
  {
    var r := AllPoints(g);
    forall i, j | 0 <= i < j < |r| ensures r[i] != r[j] {
      assert Before(r[i], r[j]);
    }
  }

  /**
   * A 16-bit-per-pixel plane: `pitch` bytes per row from `origin`. Its
   * addresses are C++ `u32` values, so they are reduced modulo 2^32.
   */
  datatype Plane = Plane(origin: int, pitch: int)

  function Addr(pl: Plane, p: Point): (a: int)
    ensures 0 <= a < U32
  {
    Wrap32(pl.origin + pl.pitch * p.y + 2 * p.x)
  }

  /** On a plane of even pitch every pixel address has the parity of the origin. */
  lemma AddrParity(pl: Plane, p: Point)
    requires pl.pitch % 2 == 0
    ensures Addr(pl, p) % 2 == pl.origin % 2
  {
    var h := pl.pitch / 2;
    var n := pl.origin + pl.pitch * p.y + 2 * p.x;
    assert pl.pitch * p.y == 2 * (h * p.y);
    assert n == pl.origin + 2 * (h * p.y + p.x);
    var q := n / U32;
    assert n == U32 * q + Addr(pl, p);
    assert U32 * q == 2 * (0x8000_0000 * q);
  }

  /** Every point of `pts` addresses a word inside a store of `n` bytes. */
  predicate PlaneFits(n: int, pl: Plane, pts: seq<Point>)
  {
    forall i :: 0 <= i < |pts| ==> Addr(pl, pts[i]) + 1 < n
  }

  /* ---------------------------------------------------------------- fill */

  /** Write `color` to every pixel of `grid` on plane `dst`. */
  datatype FillOp = FillOp(dst: Plane, grid: Grid, color: bv16)

  /** Every word the fill writes lies inside a store of `n` bytes. */
  predicate FillFits(op: FillOp, n: int)
  {
    forall y: int, x: int | op.grid.y0 <= y < op.grid.y1 && op.grid.x0 <= x < op.grid.x1 ::
      Addr(op.dst, Point(y, x)) + 1 < n
  }

  /** `v` after the fill has written the points `pts`, one word at a time. */
  function FillPoints(v: seq<bv8>, op: FillOp, pts: seq<Point>): (r: seq<bv8>)
    requires PlaneFits(|v|, op.dst, pts)
    ensures |r| == |v|
    decreases |pts|
  {
    if pts == [] then v
    else
      var prev := FillPoints(v, op, pts[..|pts| - 1]);
      WriteWord(prev, Addr(op.dst, pts[|pts| - 1]), op.color)
  }

  /** Every point the loops have visited so far addresses a word inside the store. */
  lemma FillFitsPoints(op: FillOp, n: int, y: int, x: int)
    requires FillFits(op, n) && Position(op.grid, y, x)
    ensures PlaneFits(n, op.dst, Points(op.grid, y, x))
  {
    var r := Points(op.grid, y, x);
    forall i | 0 <= i < |r| ensures Addr(op.dst, r[i]) + 1 < n {
      assert InGrid(op.grid, r[i]);
      assert r[i] == Point(r[i].y, r[i].x);
    }
  }

  /**
   * `v` when the nested fill loops stand at row `y`, column `x`: every
   * earlier pixel of the grid written with the colour, one word at a time.
   */
  function FillTo(v: seq<bv8>, op: FillOp, y: int, x: int): (r: seq<bv8>)
    requires FillFits(op, |v|) && Position(op.grid, y, x)
    ensures |r| == |v|
    decreases y - op.grid.y0, x - op.grid.x0
  {
    if x > op.grid.x0 then WriteWord(FillTo(v, op, y, x - 1), Addr(op.dst, Point(y, x - 1)), op.color)
    else if y > op.grid.y0 then FillTo(v, op, y - 1, XEnd(op.grid))
    else v
  }

  /** The whole fill: the state the loops leave when they stop. */
  function FillRect(v: seq<bv8>, op: FillOp): (r: seq<bv8>)
    requires FillFits(op, |v|)
    ensures |r| == |v|
  {
    FillTo(v, op, YEnd(op.grid), op.grid.x0)
  }

  /** The loop state is the fold of single word writes along the points visited so far. */
  lemma {:induction false} FillToPoints(v: seq<bv8>, op: FillOp, y: int, x: int)
    requires FillFits(op, |v|) && Position(op.grid, y, x)
    ensures PlaneFits(|v|, op.dst, Points(op.grid, y, x))
    ensures FillTo(v, op, y, x) == FillPoints(v, op, Points(op.grid, y, x))
    decreases y - op.grid.y0, x - op.grid.x0
  {
    FillFitsPoints(op, |v|, y, x);
    if x > op.grid.x0 {
      FillToPoints(v, op, y, x - 1);
      var pts := Points(op.grid, y, x);
      assert pts[..|pts| - 1] == Points(op.grid, y, x - 1);
    } else if y > op.grid.y0 {
      FillToPoints(v, op, y - 1, XEnd(op.grid));
    }
  }

  /** A byte of no written word keeps its value. */
  lemma {:induction false} FillPointsFrame(v: seq<bv8>, op: FillOp, pts: seq<Point>, k: int)
    requires PlaneFits(|v|, op.dst, pts)
    requires 0 <= k < |v|
    requires forall i :: 0 <= i < |pts| ==> k != Addr(op.dst, pts[i]) && k != Addr(op.dst, pts[i]) + 1
    ensures FillPoints(v, op, pts)[k] == v[k]
    decreases |pts|
  {
    if pts != [] {
      FillPointsFrame(v, op, pts[..|pts| - 1], k);
    }
  }

  /**
   * When every written word has the same address parity, no write can
   * clobber half of an earlier one, so every written word holds the colour.
   */
  lemma {:induction false} FillPointsCovers(v: seq<bv8>, op: FillOp, pts: seq<Point>)
    requires PlaneFits(|v|, op.dst, pts)
    requires forall i :: 0 <= i < |pts| ==> Addr(op.dst, pts[i]) % 2 == op.dst.origin % 2
    ensures forall i :: 0 <= i < |pts| ==> ReadWord(FillPoints(v, op, pts), Addr(op.dst, pts[i])) == op.color
    decreases |pts|
  {
    if pts != [] {
      var n := |pts| - 1;
      var init := pts[..n];
      var prev := FillPoints(v, op, init);
      var a := Addr(op.dst, pts[n]);
      assert FillPoints(v, op, pts) == WriteWord(prev, a, op.color);
      assert forall i :: 0 <= i < n ==> ReadWord(prev, Addr(op.dst, pts[i])) == op.color by {
        FillPointsCovers(v, op, init);
        assert forall i :: 0 <= i < n ==> init[i] == pts[i];
      }
      forall i | 0 <= i < |pts|
        ensures ReadWord(FillPoints(v, op, pts), Addr(op.dst, pts[i])) == op.color
      {
        var b := Addr(op.dst, pts[i]);
        if b != a {
          SameParityDisjoint(a, b, op.dst.origin);
          ReadAfterOtherWrite(prev, a, op.color, b);
        }
      }
    }
  }

  /** Two distinct word addresses of the same parity share no byte. */
  lemma SameParityDisjoint(a: int, b: int, origin: int)
    requires a % 2 == origin % 2 && b % 2 == origin % 2 && a != b
    ensures WordsDisjoint(a, b)
  {
  }

  /**
   * The fill of a rectangle on an even-pitch plane: every pixel of the grid
   * reads back as the colour, and a byte outside every written word is
   * unchanged.
   */
  lemma FillRectEffect(v: seq<bv8>, op: FillOp)
    requires FillFits(op, |v|)
    requires op.dst.pitch % 2 == 0
    ensures forall p :: InGrid(op.grid, p) ==> ReadWord(FillRect(v, op), Addr(op.dst, p)) == op.color
    ensures forall k :: 0 <= k < |v| &&
              (forall p :: InGrid(op.grid, p) ==> k != Addr(op.dst, p) && k != Addr(op.dst, p) + 1)
              ==> FillRect(v, op)[k] == v[k]
  {
    FillRectCovers(v, op);
    FillRectFrame(v, op);
  }

  lemma FillRectCovers(v: seq<bv8>, op: FillOp)
    requires FillFits(op, |v|)
    requires op.dst.pitch % 2 == 0
    ensures forall p :: InGrid(op.grid, p) ==> ReadWord(FillRect(v, op), Addr(op.dst, p)) == op.color
  {
    var pts := AllPoints(op.grid);
    assert PlaneFits(|v|, op.dst, pts) && FillRect(v, op) == FillPoints(v, op, pts) by {
      FillToPoints(v, op, YEnd(op.grid), op.grid.x0);
    }
    var r := FillPoints(v, op, pts);
    assert forall i :: 0 <= i < |pts| ==> ReadWord(r, Addr(op.dst, pts[i])) == op.color by {
      forall i | 0 <= i < |pts| ensures Addr(op.dst, pts[i]) % 2 == op.dst.origin % 2 {
        AddrParity(op.dst, pts[i]);
      }
      FillPointsCovers(v, op, pts);
    }
    forall p | InGrid(op.grid, p)
      ensures ReadWord(r, Addr(op.dst, p)) == op.color
    {
      var i :| 0 <= i < |pts| && pts[i] == p;
    }
  }

  lemma FillRectFrame(v: seq<bv8>, op: FillOp)
    requires FillFits(op, |v|)
    ensures forall k :: 0 <= k < |v| &&
              (forall p :: InGrid(op.grid, p) ==> k != Addr(op.dst, p) && k != Addr(op.dst, p) + 1)
              ==> FillRect(v, op)[k] == v[k]
  {
    var pts := AllPoints(op.grid);
    assert PlaneFits(|v|, op.dst, pts) && FillRect(v, op) == FillPoints(v, op, pts) by {
      FillToPoints(v, op, YEnd(op.grid), op.grid.x0);
    }
    forall k | 0 <= k < |v| &&
              (forall p :: InGrid(op.grid, p) ==> k != Addr(op.dst, p) && k != Addr(op.dst, p) + 1)
      ensures FillPoints(v, op, pts)[k] == v[k]
    {
      assert forall i :: 0 <= i < |pts| ==> InGrid(op.grid, pts[i]);
      FillPointsFrame(v, op, pts, k);
    }
  }

  /* ---------------------------------------------------------------- copy */

  /**
   * Copy the pixels of `grid` from plane `src` (shifted by `srcAt`) to
   * plane `dst` (shifted by `dstAt`): pixel p moves from row srcAt.y + p.y,
   * column srcAt.x + p.x of the source to the same offset of the target.
   */
  datatype CopyOp = CopyOp(src: Plane, srcAt: Point, dst: Plane, dstAt: Point, grid: Grid)

  function SrcAddr(c: CopyOp, p: Point): int
  {
    Addr(c.src, Point(c.srcAt.y + p.y, c.srcAt.x + p.x))
  }

  function DstAddr(c: CopyOp, p: Point): int
  {
    Addr(c.dst, Point(c.dstAt.y + p.y, c.dstAt.x + p.x))
  }

  /** Every word the copy reads or writes lies inside a store of `n` bytes. */
  predicate CopyFits(c: CopyOp, n: int)
  {
    forall y: int, x: int | c.grid.y0 <= y < c.grid.y1 && c.grid.x0 <= x < c.grid.x1 ::
      SrcAddr(c, Point(y, x)) + 1 < n && DstAddr(c, Point(y, x)) + 1 < n
  }

  predicate CopyPointsFit(n: int, c: CopyOp, pts: seq<Point>)
  {
    forall i :: 0 <= i < |pts| ==> SrcAddr(c, pts[i]) + 1 < n && DstAddr(c, pts[i]) + 1 < n
  }

  /**
   * `v` after the copy has moved the points `pts` one word at a time, each
   * read seeing the writes before it (the sequential semantics of the
   * source's loops, which matters when the two rectangles overlap).
   */
  function CopyPoints(v: seq<bv8>, c: CopyOp, pts: seq<Point>): (r: seq<bv8>)
    requires CopyPointsFit(|v|, c, pts)
    ensures |r| == |v|
    decreases |pts|
  {
    if pts == [] then v
    else
      var prev := CopyPoints(v, c, pts[..|pts| - 1]);
      var p := pts[|pts| - 1];
      WriteWord(prev, DstAddr(c, p), ReadWord(prev, SrcAddr(c, p)))
  }

  /** Every point the loops have visited so far reads and writes words inside the store. */
  lemma CopyFitsPoints(c: CopyOp, n: int, y: int, x: int)
    requires CopyFits(c, n) && Position(c.grid, y, x)
    ensures CopyPointsFit(n, c, Points(c.grid, y, x))
  {
    var r := Points(c.grid, y, x);
    forall i | 0 <= i < |r| ensures SrcAddr(c, r[i]) + 1 < n && DstAddr(c, r[i]) + 1 < n {
      assert InGrid(c.grid, r[i]);
      assert r[i] == Point(r[i].y, r[i].x);
    }
  }

  /**
   * `v` when the nested copy loops stand at row `y`, column `x`: every
   * earlier pixel of the grid moved, one word at a time, each read seeing
   * the writes before it.
   */
  function CopyTo(v: seq<bv8>, c: CopyOp, y: int, x: int): (r: seq<bv8>)
    requires CopyFits(c, |v|) && Position(c.grid, y, x)
    ensures |r| == |v|
    decreases y - c.grid.y0, x - c.grid.x0
  {
    if x > c.grid.x0 then
      var prev := CopyTo(v, c, y, x - 1);
      var p := Point(y, x - 1);
      WriteWord(prev, DstAddr(c, p), ReadWord(prev, SrcAddr(c, p)))
    else if y > c.grid.y0 then CopyTo(v, c, y - 1, XEnd(c.grid))
    else v
  }

  /** One more column of the copy loops: the word at the current pixel moves. */
  lemma CopyToStep(v: seq<bv8>, c: CopyOp, y: int, x: int)
    requires CopyFits(c, |v|)
    requires c.grid.y0 <= y < c.grid.y1 && c.grid.x0 <= x < c.grid.x1
    ensures Position(c.grid, y, x) && Position(c.grid, y, x + 1)
    ensures WordInRange(CopyTo(v, c, y, x), SrcAddr(c, Point(y, x)))
    ensures WordInRange(CopyTo(v, c, y, x), DstAddr(c, Point(y, x)))
    ensures CopyTo(v, c, y, x + 1) ==
            WriteWord(CopyTo(v, c, y, x), DstAddr(c, Point(y, x)), ReadWord(CopyTo(v, c, y, x), SrcAddr(c, Point(y, x))))
  {
  }

  /** The whole copy: the state the loops leave when they stop. */
  function CopyRect(v: seq<bv8>, c: CopyOp): (r: seq<bv8>)
    requires CopyFits(c, |v|)
    ensures |r| == |v|
  {
    CopyTo(v, c, YEnd(c.grid), c.grid.x0)
  }

  /** The loop state is the fold of single word moves along the points visited so far. */
  lemma {:induction false} CopyToPoints(v: seq<bv8>, c: CopyOp, y: int, x: int)
    requires CopyFits(c, |v|) && Position(c.grid, y, x)
    ensures CopyPointsFit(|v|, c, Points(c.grid, y, x))
    ensures CopyTo(v, c, y, x) == CopyPoints(v, c, Points(c.grid, y, x))
    decreases y - c.grid.y0, x - c.grid.x0
  {
    CopyFitsPoints(c, |v|, y, x);
    if x > c.grid.x0 {
      CopyToPoints(v, c, y, x - 1);
      var pts := Points(c.grid, y, x);
      assert pts[..|pts| - 1] == Points(c.grid, y, x - 1);
    } else if y > c.grid.y0 {
      CopyToPoints(v, c, y - 1, XEnd(c.grid));
    }
  }

  /** A byte of no written word keeps its value. */
  lemma {:induction false} CopyPointsFrame(v: seq<bv8>, c: CopyOp, pts: seq<Point>, k: int)
    requires CopyPointsFit(|v|, c, pts)
    requires 0 <= k < |v|
    requires forall i :: 0 <= i < |pts| ==> k != DstAddr(c, pts[i]) && k != DstAddr(c, pts[i]) + 1
    ensures CopyPoints(v, c, pts)[k] == v[k]
    decreases |pts|
  {
    if pts != [] {
      CopyPointsFrame(v, c, pts[..|pts| - 1], k);
    }
  }

  /** A word sharing no byte with any written word keeps its value. */
  lemma CopyPointsWordFrame(v: seq<bv8>, c: CopyOp, pts: seq<Point>, a: int)
    requires CopyPointsFit(|v|, c, pts)
    requires WordInRange(v, a)
    requires forall i :: 0 <= i < |pts| ==> WordsDisjoint(a, DstAddr(c, pts[i]))
    ensures ReadWord(CopyPoints(v, c, pts), a) == ReadWord(v, a)
  {
    var r := CopyPoints(v, c, pts);
    assert r[a] == v[a] && r[a + 1] == v[a + 1] by {
      CopyPointsFrame(v, c, pts, a);
      CopyPointsFrame(v, c, pts, a + 1);
    }
    SameBytesSameWord(r, v, a);
  }

  /**
   * When no source word overlaps a target word and the target words are
   * pairwise disjoint, each target word ends up holding the original
   * content of its source word.
   */
  lemma {:induction false} CopyPointsFaithful(v: seq<bv8>, c: CopyOp, pts: seq<Point>)
    requires CopyPointsFit(|v|, c, pts)
    requires forall i, j :: 0 <= i < |pts| && 0 <= j < |pts| ==> WordsDisjoint(SrcAddr(c, pts[i]), DstAddr(c, pts[j]))
    requires forall i, j :: 0 <= i < j < |pts| ==> WordsDisjoint(DstAddr(c, pts[i]), DstAddr(c, pts[j]))
    ensures forall i :: 0 <= i < |pts| ==>
              ReadWord(CopyPoints(v, c, pts), DstAddr(c, pts[i])) == ReadWord(v, SrcAddr(c, pts[i]))
    decreases |pts|
  {
    if pts != [] {
      var n := |pts| - 1;
      var init := pts[..n];
      var prev := CopyPoints(v, c, init);
      var p := pts[n];
      var w := ReadWord(prev, SrcAddr(c, p));
      assert CopyPoints(v, c, pts) == WriteWord(prev, DstAddr(c, p), w);
      assert w == ReadWord(v, SrcAddr(c, p)) by {
        forall i | 0 <= i < n ensures WordsDisjoint(SrcAddr(c, p), DstAddr(c, init[i])) {
          assert init[i] == pts[i];
        }
        CopyPointsWordFrame(v, c, init, SrcAddr(c, p));
      }
      assert forall i :: 0 <= i < n ==> ReadWord(prev, DstAddr(c, pts[i])) == ReadWord(v, SrcAddr(c, pts[i])) by {
        CopyPointsFaithful(v, c, init);
        assert forall i :: 0 <= i < n ==> init[i] == pts[i];
      }
      forall i | 0 <= i < |pts|
        ensures ReadWord(CopyPoints(v, c, pts), DstAddr(c, pts[i])) == ReadWord(v, SrcAddr(c, pts[i]))
      {
        if i < n {
          ReadAfterOtherWrite(prev, DstAddr(c, p), w, DstAddr(c, pts[i]));
        }
      }
    }
  }

  /**
   * The copy of a rectangle whose source and target regions share no byte,
   * and whose target pixels are pairwise disjoint words, reproduces the
   * source block at the target; bytes outside every target word are
   * unchanged.
   */
  lemma CopyRectEffect(v: seq<bv8>, c: CopyOp)
    requires CopyFits(c, |v|)
    requires forall p, q :: InGrid(c.grid, p) && InGrid(c.grid, q) ==> WordsDisjoint(SrcAddr(c, p), DstAddr(c, q))
    requires forall p, q :: InGrid(c.grid, p) && InGrid(c.grid, q) && p != q ==> WordsDisjoint(DstAddr(c, p), DstAddr(c, q))
    ensures forall p :: InGrid(c.grid, p) ==> ReadWord(CopyRect(v, c), DstAddr(c, p)) == ReadWord(v, SrcAddr(c, p))
    ensures forall k :: 0 <= k < |v| &&
              (forall p :: InGrid(c.grid, p) ==> k != DstAddr(c, p) && k != DstAddr(c, p) + 1)
              ==> CopyRect(v, c)[k] == v[k]
  {
    CopyRectMoves(v, c);
    CopyRectFrame(v, c);
  }

  lemma CopyRectMoves(v: seq<bv8>, c: CopyOp)
    requires CopyFits(c, |v|)
    requires forall p, q :: InGrid(c.grid, p) && InGrid(c.grid, q) ==> WordsDisjoint(SrcAddr(c, p), DstAddr(c, q))
    requires forall p, q :: InGrid(c.grid, p) && InGrid(c.grid, q) && p != q ==> WordsDisjoint(DstAddr(c, p), DstAddr(c, q))
    ensures forall p :: InGrid(c.grid, p) ==> ReadWord(CopyRect(v, c), DstAddr(c, p)) == ReadWord(v, SrcAddr(c, p))
  {
    var pts := AllPoints(c.grid);
    var r := CopyRect(v, c);
    assert CopyPointsFit(|v|, c, pts) && r == CopyPoints(v, c, pts) by {
      CopyToPoints(v, c, YEnd(c.grid), c.grid.x0);
    }
    assert forall i :: 0 <= i < |pts| ==> ReadWord(r, DstAddr(c, pts[i])) == ReadWord(v, SrcAddr(c, pts[i])) by {
      CopyGridDisjoint(c);
      CopyPointsFaithful(v, c, pts);
    }
    CopyPointsToGrid(v, r, c);
  }

  /** A fact about every point of the loop order is a fact about every pixel of the grid. */
  lemma CopyPointsToGrid(v: seq<bv8>, r: seq<bv8>, c: CopyOp)
    requires CopyFits(c, |v|) && |r| == |v|
    requires var pts := AllPoints(c.grid);
      forall i :: 0 <= i < |pts| ==> ReadWord(r, DstAddr(c, pts[i])) == ReadWord(v, SrcAddr(c, pts[i]))
    ensures forall p :: InGrid(c.grid, p) ==> ReadWord(r, DstAddr(c, p)) == ReadWord(v, SrcAddr(c, p))
  {
    var pts := AllPoints(c.grid);
    forall p | InGrid(c.grid, p)
      ensures ReadWord(r, DstAddr(c, p)) == ReadWord(v, SrcAddr(c, p))
    {
      var i :| 0 <= i < |pts| && pts[i] == p;
    }
  }

  /** The disjointness of the grid's words, stated on the loop order's points. */
  lemma CopyGridDisjoint(c: CopyOp)
    requires forall p, q :: InGrid(c.grid, p) && InGrid(c.grid, q) ==> WordsDisjoint(SrcAddr(c, p), DstAddr(c, q))
    requires forall p, q :: InGrid(c.grid, p) && InGrid(c.grid, q) && p != q ==> WordsDisjoint(DstAddr(c, p), DstAddr(c, q))
    ensures var pts := AllPoints(c.grid);
      forall i, j :: 0 <= i < |pts| && 0 <= j < |pts| ==> WordsDisjoint(SrcAddr(c, pts[i]), DstAddr(c, pts[j]))
    ensures var pts := AllPoints(c.grid);
      forall i, j :: 0 <= i < j < |pts| ==> WordsDisjoint(DstAddr(c, pts[i]), DstAddr(c, pts[j]))
  {
    var pts := AllPoints(c.grid);
    AllPointsDistinct(c.grid);
    forall i, j | 0 <= i < |pts| && 0 <= j < |pts|
      ensures WordsDisjoint(SrcAddr(c, pts[i]), DstAddr(c, pts[j]))
    {
      assert InGrid(c.grid, pts[i]) && InGrid(c.grid, pts[j]);
    }
    forall i, j | 0 <= i < j < |pts|
      ensures WordsDisjoint(DstAddr(c, pts[i]), DstAddr(c, pts[j]))
    {
      assert InGrid(c.grid, pts[i]) && InGrid(c.grid, pts[j]) && pts[i] != pts[j];
    }
  }

  lemma CopyRectFrame(v: seq<bv8>, c: CopyOp)
    requires CopyFits(c, |v|)
    ensures forall k :: 0 <= k < |v| &&
              (forall p :: InGrid(c.grid, p) ==> k != DstAddr(c, p) && k != DstAddr(c, p) + 1)
              ==> CopyRect(v, c)[k] == v[k]
  {
    var pts := AllPoints(c.grid);
    CopyToPoints(v, c, YEnd(c.grid), c.grid.x0);
    var r := CopyPoints(v, c, pts);
    assert CopyRect(v, c) == r;
    forall k | 0 <= k < |v| &&
              (forall p :: InGrid(c.grid, p) ==> k != DstAddr(c, p) && k != DstAddr(c, p) + 1)
      ensures r[k] == v[k]
    {
      forall i | 0 <= i < |pts| ensures k != DstAddr(c, pts[i]) && k != DstAddr(c, pts[i]) + 1 {
        assert InGrid(c.grid, pts[i]);
      }
      CopyPointsFrame(v, c, pts, k);
    }
  }
}
