/**
 * Walking the grid (src/grid/iter.rs): the linewise generator visits points in
 * reading order, wrapping at the grid width, as a text selection does; the
 * blockwise generator visits a rectangle row by row.  `GridIterator` pairs each
 * generated point with its cell.
 */
module GridIter {
  import opened Wrappers
  import opened Points
  import opened Grids

  /** `std::ops::Bound`. */
  datatype Bound<T> = Included(value: T) | Excluded(value: T) | Unbounded

  /**
   * A `RangeBounds` value as its two bounds: `a..b` is (Included a, Excluded b),
   * `a..=b` is (Included a, Included b), `..b`, `a..` and `..` leave one or both unbounded.
   */
  datatype RangeBounds<T> = RangeBounds(start: Bound<T>, end: Bound<T>)

  /** `std::ops::Range`: start inclusive, end exclusive. */
  datatype Range<T> = Range(start: T, end: T)

  /** The start bound both generators use: an inclusive start, else the origin. */
  function StartPoint(b: Bound<Point>): (p: Point)
    ensures b.Included? ==> p == b.value
    ensures !b.Included? ==> forall q: Point :: Le(p, q)
  {
    match b
    case Included(p) => p
    case _ => Default()
  }

  /** `LinewisePointGenerator::normalize_range`. */
  function LinewiseNormalize(r: RangeBounds<Point>, size: Point): (n: Range<Point>)
    ensures n.start == StartPoint(r.start)
    ensures r.end.Excluded? ==> n.end == r.end.value
    // An unbounded end stops just past the last row of the grid.
    ensures r.end.Unbounded? ==> forall q: Point :: Lt(q, n.end) <==> q.y < size.y
    // An inclusive end stops at the first in-width point after it.
    ensures r.end.Included? && r.end.value.x < size.x ==>
      n.end.x < size.x && forall q: Point :: q.x < size.x ==> (Lt(q, n.end) <==> Le(q, r.end.value))
    // An inclusive end beyond the width stops at the start of the next row.
    ensures r.end.Included? && r.end.value.x >= size.x ==> n.end == P(0, r.end.value.y + 1)
  {
    var end :=
      match r.end
      case Unbounded => P(0, size.y)
      case Excluded(p) => p
      case Included(p) => Succ(p, size.x);
    InclusiveEnd(size.x);
    Range(StartPoint(r.start), end)
  }

  /** Within the width, the points before the successor of `p` are those up to `p`. */
  lemma InclusiveEnd(w: nat)
    ensures forall p: Point, q: Point :: p.x < w && q.x < w ==> (Lt(q, Succ(p, w)) <==> Le(q, p))
  {
    forall p: Point, q: Point | p.x < w && q.x < w
      ensures Lt(q, Succ(p, w)) <==> Le(q, p)
    {
      SuccIsNext(p, q, w);
    }
  }

  /** `BlockwisePointGenerator::normalize_range`. */
  function BlockwiseNormalize(r: RangeBounds<Point>, size: Point): (n: Range<Point>)
    ensures n.start == StartPoint(r.start)
    ensures r.end.Excluded? ==> n.end == r.end.value
    // An unbounded end covers the whole grid.
    ensures r.end.Unbounded? ==> forall q: Point :: (q.x < n.end.x && q.y < n.end.y) <==> (q.x < size.x && q.y < size.y)
    // An inclusive end covers its own column and row.
    ensures r.end.Included? ==>
      forall q: Point :: (q.x < n.end.x && q.y < n.end.y) <==> (q.x <= r.end.value.x && q.y <= r.end.value.y)
  {
    var end :=
      match r.end
      case Unbounded => size
      case Excluded(p) => p
      case Included(p) => P(p.x + 1, p.y + 1);
    Range(StartPoint(r.start), end)
  }

  /** The row range `GridIterator::lines` turns its bounds into, `height` being the grid's. */
  function LinesRange(r: RangeBounds<nat>, height: nat): (n: Range<Point>)
    ensures n.start.x == 0 && n.end.x == 0
    ensures n.start.y == (if r.start.Included? then r.start.value else 0)
    ensures n.end.y == match r.end
      case Unbounded => height
      case Excluded(e) => e
      case Included(e) => e + 1
  {
    var start := match r.start
      case Included(s) => s
      case _ => 0;
    var end := match r.end
      case Unbounded => height
      case Excluded(e) => e
      case Included(e) => e + 1;
    Range(P(0, start), P(0, end))
  }

  /** The points the linewise generator yields from `cur` on: reading order up to `end`, wrapping at `w`. */
  function LinewisePoints(cur: Point, end: Point, w: nat): seq<Point>
    decreases end.y - cur.y, w - cur.x
  {
    if !Lt(cur, end) then [] else [cur] + LinewisePoints(Succ(cur, w), end, w)
  }

  /** The linewise points increase strictly, start at `cur` and stay below `end`. */
  lemma {:induction false} LinewiseSorted(cur: Point, end: Point, w: nat)
    ensures var ps := LinewisePoints(cur, end, w);
      (|ps| > 0 <==> Lt(cur, end)) && (|ps| > 0 ==> ps[0] == cur) &&
      (forall i :: 0 <= i < |ps| ==> Le(cur, ps[i]) && Lt(ps[i], end)) &&
      (forall i, j :: 0 <= i < j < |ps| ==> Lt(ps[i], ps[j]))
    decreases end.y - cur.y, w - cur.x
  {
    if Lt(cur, end) {
      LinewiseSorted(Succ(cur, w), end, w);
    }
  }

  /** Within the width, the k-th linewise point is k cells after `cur` in row-major order. */
  lemma {:induction false} LinewiseIndexed(cur: Point, end: Point, w: nat)
    requires cur.x < w
    ensures forall k :: 0 <= k < |LinewisePoints(cur, end, w)| ==>
      LinewisePoints(cur, end, w)[k].x < w && Linear(LinewisePoints(cur, end, w)[k], w) == Linear(cur, w) + k
    decreases end.y - cur.y, w - cur.x
  {
    if Lt(cur, end) {
      var next := Succ(cur, w);
      LinewiseIndexed(next, end, w);
      var ps, rest := LinewisePoints(cur, end, w), LinewisePoints(next, end, w);
      assert ps == [cur] + rest;
      forall k | 1 <= k < |ps|
        ensures ps[k].x < w && Linear(ps[k], w) == Linear(cur, w) + k
      {
        assert ps[k] == rest[k - 1];
        assert 0 <= k - 1 < |rest|;
        assert rest[k - 1].x < w && Linear(rest[k - 1], w) == Linear(next, w) + (k - 1);
      }
    }
  }

  /** With both ends inside the width, the linewise generator yields `Linear(end) - Linear(start)` points. */
  lemma {:induction false} LinewiseCount(cur: Point, end: Point, w: nat)
    requires cur.x < w && end.x < w
    ensures |LinewisePoints(cur, end, w)| == if Lt(cur, end) then Linear(end, w) - Linear(cur, w) else 0
    decreases end.y - cur.y, w - cur.x
  {
    LinearOrder(cur, end, w);
    if Lt(cur, end) {
      var next := Succ(cur, w);
      SuccIsNext(cur, end, w);
      LinearOrder(next, end, w);
      LinewiseCount(next, end, w);
    }
  }

  /** With both ends inside the width, the linewise generator yields exactly the in-width points in [cur, end). */
  lemma LinewiseCovers(cur: Point, end: Point, w: nat, p: Point)
    requires cur.x < w && end.x < w && p.x < w
    ensures p in LinewisePoints(cur, end, w) <==> Le(cur, p) && Lt(p, end)
  {
    var ps := LinewisePoints(cur, end, w);
    LinewiseIndexed(cur, end, w);
    LinewiseCount(cur, end, w);
    LinearOrder(cur, p, w);
    LinearOrder(p, end, w);
    LinearOrder(cur, end, w);
    if p in ps {
      var k :| 0 <= k < |ps| && ps[k] == p;
    }
    if Le(cur, p) && Lt(p, end) {
      var k := Linear(p, w) - Linear(cur, w);
      assert 0 <= k < |ps|;
      LinearOrder(ps[k], p, w);
      assert ps[k] == p;
    }
  }

  /** `lines(start..end)` on a grid of positive width visits every cell of rows start..end-1 and nothing else. */
  lemma LinesCover(r: RangeBounds<nat>, size: Point, p: Point)
    requires size.x > 0 && p.x < size.x
    ensures var n := LinesRange(r, size.y);
      p in LinewisePoints(n.start, n.end, size.x) <==> n.start.y <= p.y < n.end.y
  {
    var n := LinesRange(r, size.y);
    LinewiseCovers(n.start, n.end, size.x, p);
  }

  /** `lines` yields whole rows: `w` points for each row in the range. */
  lemma LinesCount(r: RangeBounds<nat>, size: Point)
    requires size.x > 0
    ensures var n := LinesRange(r, size.y);
      |LinewisePoints(n.start, n.end, size.x)| == if n.start.y < n.end.y then (n.end.y - n.start.y) * size.x else 0
  {
    var n := LinesRange(r, size.y);
    LinewiseCount(n.start, n.end, size.x);
    MulSub(n.end.y, n.start.y, size.x);
  }

  /** The blockwise step: one column right, or back to the range's first column on the next row. */
  function BlockStep(cur: Point, r: Range<Point>): Point {
    if cur.x + 1 >= r.end.x then Point(cur.y + 1, r.start.x) else Point(cur.y, cur.x + 1)
  }

  /** The points the blockwise generator yields from `cur` on. */
  function BlockwisePoints(cur: Point, r: Range<Point>): seq<Point>
    decreases r.end.y - cur.y, r.end.x - cur.x
  {
    if cur.x >= r.end.x || cur.y >= r.end.y then []
    else [cur] + BlockwisePoints(BlockStep(cur, r), r)
  }

  /** A point of the rectangle [start.x, end.x) x [start.y, end.y). */
  predicate InBlock(p: Point, r: Range<Point>) {
    r.start.x <= p.x < r.end.x && r.start.y <= p.y < r.end.y
  }

  /** The part of the rectangle's columns from `cur` on, in reading order. */
  predicate InBlockFrom(p: Point, cur: Point, r: Range<Point>) {
    r.start.x <= p.x < r.end.x && p.y < r.end.y && Le(cur, p)
  }

  /** From a position inside the columns, the blockwise generator yields exactly the rest of the rectangle, strictly increasing. */
  lemma {:induction false} BlockwiseFrom(cur: Point, r: Range<Point>)
    requires r.start.x <= cur.x && (cur.x < r.end.x || r.end.x <= r.start.x)
    ensures var ps := BlockwisePoints(cur, r);
      (forall p :: p in ps <==> InBlockFrom(p, cur, r)) &&
      (forall i, j :: 0 <= i < j < |ps| ==> Lt(ps[i], ps[j])) &&
      (forall i :: 0 <= i < |ps| ==> Le(cur, ps[i]))
    decreases r.end.y - cur.y, r.end.x - cur.x
  {
    if cur.x < r.end.x && cur.y < r.end.y {
      var next := BlockStep(cur, r);
      BlockwiseFrom(next, r);
      var ps := BlockwisePoints(cur, r);
      assert ps == [cur] + BlockwisePoints(next, r);
      forall p
        ensures p in ps <==> InBlockFrom(p, cur, r)
      {
        assert p in ps <==> p == cur || InBlockFrom(p, next, r);
      }
    }
  }

  /** From `start`, the blockwise generator yields exactly the rectangle, in reading order. */
  lemma BlockwiseRectangle(r: Range<Point>)
    ensures var ps := BlockwisePoints(r.start, r);
      (forall p :: p in ps <==> InBlock(p, r)) &&
      (forall i, j :: 0 <= i < j < |ps| ==> Lt(ps[i], ps[j]))
  {
    BlockwiseFrom(r.start, r);
    var ps := BlockwisePoints(r.start, r);
    forall p
      ensures p in ps <==> InBlock(p, r)
    {
      assert InBlockFrom(p, r.start, r) <==> InBlock(p, r);
    }
  }

  /** The number of points left from `cur`: the rest of this row, then whole rows. */
  lemma {:induction false} BlockwiseCountFrom(cur: Point, r: Range<Point>)
    requires r.start.x <= cur.x < r.end.x && cur.y < r.end.y
    ensures |BlockwisePoints(cur, r)| == (r.end.x - cur.x) + (r.end.y - cur.y - 1) * (r.end.x - r.start.x)
    decreases r.end.y - cur.y, r.end.x - cur.x
  {
    var next := BlockStep(cur, r);
    var width := r.end.x - r.start.x;
    if cur.x + 1 < r.end.x {
      BlockwiseCountFrom(next, r);
    } else if cur.y + 1 < r.end.y {
      BlockwiseCountFrom(next, r);
      assert (r.end.y - cur.y - 1) * width == width + (r.end.y - cur.y - 2) * width;
    }
  }

  /** The blockwise generator yields `(end.x - start.x) * (end.y - start.y)` points, or none when a span is empty. */
  lemma BlockwiseCount(r: Range<Point>)
    ensures |BlockwisePoints(r.start, r)| ==
      if r.start.x < r.end.x && r.start.y < r.end.y then (r.end.x - r.start.x) * (r.end.y - r.start.y) else 0
  {
    if r.start.x < r.end.x && r.start.y < r.end.y {
      BlockwiseCountFrom(r.start, r);
      var width := r.end.x - r.start.x;
      assert width + (r.end.y - r.start.y - 1) * width == width * (r.end.y - r.start.y);
    }
  }

  /** `LinewisePointGenerator`: a cursor walking a normalized range in reading order. */
  class LinewisePointGenerator {
    const range: Range<Point>
    const size: Point
    var cur: Point

    /** The points still to come. */
    ghost function Remaining(): seq<Point>
      reads this
    {
      LinewisePoints(cur, range.end, size.x)
    }

    /** `LinewisePointGenerator::new`. */
    constructor (r: RangeBounds<Point>, size: Point)
      ensures range == LinewiseNormalize(r, size) && this.size == size
      ensures cur == range.start
      ensures Remaining() == LinewisePoints(range.start, range.end, size.x)
    {
      range := LinewiseNormalize(r, size);
      this.size := size;
      cur := LinewiseNormalize(r, size).start;
    }

    /** `next`: the next point in reading order; at the end, None and no change. */
    method Next() returns (p: Option<Point>)
      modifies this
      ensures old(Remaining()) == [] ==> p == None && cur == old(cur)
      ensures old(Remaining()) != [] ==> p == Some(old(Remaining())[0]) && Remaining() == old(Remaining())[1..]
    {
      if Ge(cur, range.end) {
        return None;
      }
      p := Some(cur);
      var next := cur.(x := cur.x + 1);
      if next.x >= size.x {
        next := next.(x := 0, y := next.y + 1);
      }
      cur := next;
    }
  }

  /** `BlockwisePointGenerator`: a cursor walking a rectangle row by row. */
  class BlockwisePointGenerator {
    const range: Range<Point>
    var cur: Point

    ghost function Remaining(): seq<Point>
      reads this
    {
      BlockwisePoints(cur, range)
    }

    /** `BlockwisePointGenerator::new`. */
    constructor (r: RangeBounds<Point>, size: Point)
      ensures range == BlockwiseNormalize(r, size)
      ensures cur == range.start
      ensures Remaining() == BlockwisePoints(range.start, range)
    {
      range := BlockwiseNormalize(r, size);
      cur := BlockwiseNormalize(r, size).start;
    }

    /** `next`: the next point of the rectangle; at the end, None and no change. */
    method Next() returns (p: Option<Point>)
      modifies this
      ensures old(Remaining()) == [] ==> p == None && cur == old(cur)
      ensures old(Remaining()) != [] ==> p == Some(old(Remaining())[0]) && Remaining() == old(Remaining())[1..]
    {
      if cur.x >= range.end.x || cur.y >= range.end.y {
        return None;
      }
      p := Some(cur);
      var next := cur.(x := cur.x + 1);
      if next.x >= range.end.x {
        next := next.(x := range.start.x, y := next.y + 1);
      }
      cur := next;
    }
  }

  /** The point generator a `GridIterator` drives: one of the two kinds. */
  datatype PointGenerator = Linewise(lw: LinewisePointGenerator) | Blockwise(bw: BlockwisePointGenerator)

  /** `GridIterator`: a grid borrowed for reading, walked by a point generator. */
  class GridIterator {
    const grid: Grid
    const generator: PointGenerator

    /** The generator object the iterator advances. */
    function Source(): object {
      match generator
      case Linewise(g) => g
      case Blockwise(g) => g
    }

    /** The points its generator has still to yield. */
    ghost function Points(): seq<Point>
      reads Source()
    {
      match generator
      case Linewise(g) => g.Remaining()
      case Blockwise(g) => g.Remaining()
    }

    /** `GridIterator::selection`: the cells of a text selection, in reading order. */
    constructor Selection(grid: Grid, r: RangeBounds<Point>)
      ensures this.grid == grid && fresh(Source())
      ensures var n := LinewiseNormalize(r, grid.size); Points() == LinewisePoints(n.start, n.end, grid.size.x)
    {
      this.grid := grid;
      var g := new LinewisePointGenerator(r, grid.size);
      generator := Linewise(g);
    }

    /** `GridIterator::lines`: the cells of whole rows. */
    constructor Lines(grid: Grid, r: RangeBounds<nat>)
      ensures this.grid == grid && fresh(Source())
      ensures var n := LinesRange(r, grid.size.y); Points() == LinewisePoints(n.start, n.end, grid.size.x)
    {
      this.grid := grid;
      var n := LinesRange(r, grid.size.y);
      var g := new LinewisePointGenerator(RangeBounds(Included(n.start), Excluded(n.end)), grid.size);
      generator := Linewise(g);
    }

    /** `GridIterator::block`: the cells of a rectangle, row by row. */
    constructor Block(grid: Grid, r: RangeBounds<Point>)
      ensures this.grid == grid && fresh(Source())
      ensures var n := BlockwiseNormalize(r, grid.size); Points() == BlockwisePoints(n.start, n)
    {
      this.grid := grid;
      var g := new BlockwisePointGenerator(r, grid.size);
      generator := Blockwise(g);
    }

    /**
     * `next`: the next generated point with its cell.  A point outside the
     * grid is consumed and gives None, which ends a `for` loop over the iterator.
     */
    method Next() returns (item: Option<(Point, Cell)>)
      modifies Source()
      ensures old(Points()) == [] ==> item == None && Points() == []
      ensures old(Points()) != [] ==> (Points() == old(Points())[1..] &&
        var p := old(Points())[0];
        match grid.CellAt(p)
        case Some(c) => item == Some((p, c))
        case None => item == None)
    {
      var p;
      match generator {
        case Linewise(g) => p := g.Next();
        case Blockwise(g) => p := g.Next();
      }
      match p {
        case None => item := None;
        case Some(q) =>
          var c := grid.CellAt(q);
          item := if c.Some? then Some((q, c.value)) else None;
      }
    }
  }

  /** `P(3, 2)..P(1, 4)` in a 5x5 grid: the rest of row 2, all of row 3, the first cell of row 4. */
  lemma LinewiseExample()
    ensures LinewiseNormalize(RangeBounds(Included(P(3, 2)), Excluded(P(1, 4))), P(5, 5)) == Range(P(3, 2), P(1, 4))
    ensures LinewisePoints(P(3, 2), P(1, 4), 5) ==
      [P(3, 2), P(4, 2), P(0, 3), P(1, 3), P(2, 3), P(3, 3), P(4, 3), P(0, 4)]
  {
  }

  /** `..=P(4, 2)` in a 5x5 grid ends at `P(0, 3)`: the inclusive end wraps to the next row. */
  lemma LinewiseInclusiveExample()
    ensures LinewiseNormalize(RangeBounds(Unbounded, Included(P(4, 2))), P(5, 5)) == Range(P(0, 0), P(0, 3))
    ensures LinewiseNormalize(RangeBounds(Included(P(3, 2)), Included(P(1, 4))), P(5, 5)) == Range(P(3, 2), P(2, 4))
    ensures LinewiseNormalize(RangeBounds(Included(P(2, 2)), Unbounded), P(5, 5)) == Range(P(2, 2), P(0, 5))
  {
  }

  /** `P(1, 1)..P(4, 3)`: columns 1..3 of rows 1 and 2. */
  lemma BlockwiseExample()
    ensures BlockwiseNormalize(RangeBounds(Included(P(1, 1)), Excluded(P(4, 3))), P(5, 5)) == Range(P(1, 1), P(4, 3))
    ensures BlockwisePoints(P(1, 1), Range(P(1, 1), P(4, 3))) ==
      [P(1, 1), P(2, 1), P(3, 1), P(1, 2), P(2, 2), P(3, 2)]
  {
  }

  /** Inclusive and unbounded block ends. */
  lemma BlockwiseBoundsExample()
    ensures BlockwiseNormalize(RangeBounds(Included(P(1, 1)), Included(P(4, 3))), P(5, 5)) == Range(P(1, 1), P(5, 4))
    ensures BlockwiseNormalize(RangeBounds(Unbounded, Included(P(2, 3))), P(5, 5)) == Range(P(0, 0), P(3, 4))
    ensures BlockwiseNormalize(RangeBounds(Included(P(2, 3)), Unbounded), P(5, 5)) == Range(P(2, 3), P(5, 5))
  {
  }
}
