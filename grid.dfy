/**
 * The screen buffer (src/grid/mod.rs with src/grid/line.rs and
 * src/grid/cell.rs): a vector of lines of cells, the tab stops, and the size
 * the grid was made with.
 */
module Grids {
  import opened Wrappers
  import opened Points
  import TextAttributes

  /** A cell: the character drawn there, if any, and its rendition. */
  datatype Cell = Cell(ch: Option<char>, attributes: TextAttributes.Attributes)

  /** `Cell::default()`: empty, with the default rendition. */
  const DefaultCell: Cell := Cell(None, TextAttributes.DefaultAttributes)

  /** `Line::new(width)`: `width` default cells. */
  function NewLine(width: nat): (line: seq<Cell>)
    ensures |line| == width
    ensures forall i :: 0 <= i < width ==> line[i] == DefaultCell
  {
    seq(width, _ => DefaultCell)
  }

  /** The cell at `p` of a vector of lines: `data.get(p.y).and_then(|l| l.get(p.x))`. */
  function Lookup(data: seq<seq<Cell>>, p: Point): Option<Cell> {
    if p.y < |data| && p.x < |data[p.y]| then Some(data[p.y][p.x]) else None
  }

  /** The lines with the cell at `p` replaced by `c`, when there is such a cell. */
  function Store(data: seq<seq<Cell>>, p: Point, c: Cell): (r: seq<seq<Cell>>)
    ensures |r| == |data| && forall y :: 0 <= y < |data| ==> |r[y]| == |data[y]|
    ensures Lookup(data, p).Some? ==> Lookup(r, p) == Some(c)
    ensures forall q :: q != p ==> Lookup(r, q) == Lookup(data, q)
  {
    if p.y < |data| && p.x < |data[p.y]| then data[p.y := data[p.y][p.x := c]] else data
  }

  class Grid {
    var data: seq<seq<Cell>>
    var tabstops: seq<bool>
    const size: Point

    /** Every line and the tab stops are as wide as the grid. */
    ghost predicate Valid()
      reads this
    {
      |tabstops| == size.x && forall y :: 0 <= y < |data| ==> |data[y]| == size.x
    }

    /** `Grid::new(size)`: `size.y` blank lines of `size.x` cells and no tab stop set. */
    constructor (size: Point)
      ensures Valid() && this.size == size
      ensures |data| == size.y && forall y :: 0 <= y < size.y ==> data[y] == NewLine(size.x)
      ensures |tabstops| == size.x && forall x :: 0 <= x < size.x ==> !tabstops[x]
    {
      this.size := size;
      data := seq(size.y, _ => NewLine(size.x));
      tabstops := seq(size.x, _ => false);
    }

    /** `add_line`: one blank line at the bottom; the other lines are untouched. */
    method AddLine()
      requires Valid()
      modifies this
      ensures Valid()
      ensures data == old(data) + [NewLine(size.x)]
      ensures tabstops == old(tabstops)
    {
      data := data + [NewLine(size.x)];
    }

    /** `point_to_index`: the row-major offset of a point. */
    function PointToIndex(p: Point): (i: nat)
      reads this
      ensures p.x < size.x ==> i / size.x == p.y && i % size.x == p.x
    {
      assert p.x < size.x ==> Linear(p, size.x) / size.x == p.y && Linear(p, size.x) % size.x == p.x by {
        if p.x < size.x { RowMajor(p.y, p.x, size.x); }
      }
      Linear(p, size.x)
    }

    /** `cell`: the cell at `p`, when the row exists and is long enough. */
    function CellAt(p: Point): (c: Option<Cell>)
      reads this
      ensures c.Some? <==> p.y < |data| && p.x < |data[p.y]|
      ensures c.Some? ==> c.value == data[p.y][p.x]
    {
      Lookup(data, p)
    }

    /**
     * Writing `c` through `cell_mut(p)`: when the cell exists it becomes `c`
     * and every other cell keeps its value; otherwise nothing changes.
     */
    method SetCell(p: Point, c: Cell) returns (found: bool)
      requires Valid()
      modifies this
      ensures Valid()
      ensures found <==> old(CellAt(p)).Some?
      ensures found ==> CellAt(p) == Some(c)
      ensures forall q :: q != p ==> CellAt(q) == old(CellAt(q))
      ensures data == Store(old(data), p, c) && tabstops == old(tabstops)
    {
      found := p.y < |data| && p.x < |data[p.y]|;
      if found {
        data := data[p.y := data[p.y][p.x := c]];
      }
    }
  }

  /** Row-major offsets divide back into their row and column. */
  lemma RowMajor(y: nat, x: nat, w: nat)
    requires x < w
    ensures (y * w + x) / w == y && (y * w + x) % w == x
  {
    var i := y * w + x;
    var q, r := i / w, i % w;
    assert i == q * w + r;
    assert (y - q) * w == r - x by { MulSub(y, q, w); }
    if y > q {
      MulAtLeast(y - q, w);
    } else if y < q {
      MulAtLeast(q - y, w);
      MulSub(q, y, w);
    }
  }

  lemma MulSub(a: int, b: int, w: int)
    ensures (a - b) * w == a * w - b * w
  {
  }

  lemma MulAtLeast(k: int, w: int)
    requires k >= 1 && w >= 0
    ensures k * w >= w
  {
  }

  /** On the points of a grid `w` wide, `point_to_index` is one-to-one and follows the point order. */
  lemma PointToIndexOrder(g: Grid, p: Point, q: Point)
    requires p.x < g.size.x && q.x < g.size.x
    ensures g.PointToIndex(p) == g.PointToIndex(q) <==> p == q
    ensures g.PointToIndex(p) < g.PointToIndex(q) <==> Lt(p, q)
  {
    LinearOrder(p, q, g.size.x);
  }
}
