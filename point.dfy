/**
 * Grid positions (src/util/point.rs). A point stores its row `y` before its
 * column `x`, so the derived ordering compares rows first and columns second.
 */
module Points {

  datatype Point = Point(y: nat, x: nat)

  /** `Point::new(x, y)`: the first argument is the column. */
  function New(x: nat, y: nat): (p: Point)
    ensures p.x == x && p.y == y
  {
    Point(y := y, x := x)
  }

  /** `From<(usize, usize)>`: the pair is (column, row). */
  function FromPair(pair: (nat, nat)): (p: Point)
    ensures p.x == pair.0 && p.y == pair.1
  {
    New(pair.0, pair.1)
  }

  /** The shorthand constructor `P(x, y)` used throughout the tests. */
  function P(x: nat, y: nat): (p: Point)
    ensures p == New(x, y) && p == FromPair((x, y))
  {
    New(x, y)
  }

  /** `Point::default()`. */
  function Default(): (p: Point)
    ensures p.x == 0 && p.y == 0
  {
    Point(0, 0)
  }

  /** The derived `<`: fields compared in declaration order, `y` first. */
  predicate Lt(a: Point, b: Point) {
    a.y < b.y || (a.y == b.y && a.x < b.x)
  }

  /** The derived `>=`. */
  predicate Ge(a: Point, b: Point) {
    a.y > b.y || (a.y == b.y && a.x >= b.x)
  }

  predicate Le(a: Point, b: Point) {
    Lt(a, b) || a == b
  }

  /** The derived order is a strict total order, and `>=` is its complement. */
  lemma OrderIsStrictTotal(a: Point, b: Point, c: Point)
    ensures !Lt(a, a)
    ensures Lt(a, b) && Lt(b, c) ==> Lt(a, c)
    ensures a == b || Lt(a, b) || Lt(b, a)
    ensures Ge(a, b) <==> !Lt(a, b)
  {
  }

  /** The row-major position of `p` in a grid `w` cells wide. */
  function Linear(p: Point, w: nat): nat {
    p.y * w + p.x
  }

  /**
   * The row-major successor used by the cursor and by the linewise generator:
   * one column right, or the start of the next row once the column reaches `w`.
   */
  function Succ(p: Point, w: nat): (q: Point)
    ensures Lt(p, q)
    ensures p.x < w ==> q.x < w && Linear(q, w) == Linear(p, w) + 1
  {
    if p.x + 1 >= w then Point(p.y + 1, 0) else Point(p.y, p.x + 1)
  }

  /** Within the width, `Linear` is injective and agrees with the point order. */
  lemma LinearOrder(a: Point, b: Point, w: nat)
    requires a.x < w && b.x < w
    ensures Lt(a, b) <==> Linear(a, w) < Linear(b, w)
    ensures a == b <==> Linear(a, w) == Linear(b, w)
  {
    if a.y < b.y {
      RowGap(a, b, w);
    } else if b.y < a.y {
      RowGap(b, a, w);
    }
  }

  lemma RowGap(a: Point, b: Point, w: nat)
    requires a.x < w && b.x < w && a.y < b.y
    ensures Linear(a, w) < Linear(b, w)
  {
    assert a.y * w + w <= b.y * w by {
      assert (a.y + 1) * w <= b.y * w;
    }
  }

  /** No in-width point lies strictly between `p` and its successor. */
  lemma SuccIsNext(p: Point, q: Point, w: nat)
    requires q.x < w
    ensures Lt(p, q) <==> Le(Succ(p, w), q)
  {
  }
}
