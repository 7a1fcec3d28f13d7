/** Coves: the straight one-cell-wide corridor segments. */
module Coves {

  const DIRECTION_V: int := 1
  const DIRECTION_H: int := 2

  datatype Coord = Coord(x: int, y: int)

  function Abs(n: int): nat { if n < 0 then -n else n }
  function Min(a: int, b: int): int { if a < b then a else b }
  function Max(a: int, b: int): int { if a < b then b else a }

  /** A corridor segment. A horizontal one runs along row `bottom` (== `top`) over the
      columns [left, right); any other direction is treated as vertical and runs along
      column `right` (== `left`) over the rows [top, bottom). */
  datatype Cove = Cove(left: int, top: int, right: int, bottom: int, direction: int)
  {
    /** (x, y) is one of this cove's cells. */
    predicate Covers(x: int, y: int)
    {
      if direction == DIRECTION_H then y == bottom && left <= x < right
      else x == right && top <= y < bottom
    }

    /** The cells `getCoord` lists, in the order it lists them. */
    function Cells(): (cs: seq<Coord>)
      ensures forall k :: 0 <= k < |cs| ==> Covers(cs[k].x, cs[k].y)
      ensures |cs| == if direction == DIRECTION_H then Max(0, right - left) else Max(0, bottom - top)
    {
      if direction == DIRECTION_H then seq(Max(0, right - left), k => Coord(left + k, bottom))
      else seq(Max(0, bottom - top), k => Coord(right, top + k))
    }

    /** `getCoord`: walks the half-open range of the segment and collects its cells. */
    method GetCoord() returns (cs: seq<Coord>)
      ensures cs == Cells()
    {
      cs := [];
      if direction == DIRECTION_H {
        var x := left;
        while x < right
          invariant |cs| == x - left && (x == left || x <= right)
          invariant forall k :: 0 <= k < |cs| ==> cs[k] == Coord(left + k, bottom)
        {
          cs := cs + [Coord(x, bottom)];
          x := x + 1;
        }
      } else {
        var y := top;
        while y < bottom
          invariant |cs| == y - top && (y == top || y <= bottom)
          invariant forall k :: 0 <= k < |cs| ==> cs[k] == Coord(right, top + k)
        {
          cs := cs + [Coord(right, y)];
          y := y + 1;
        }
      }
    }
  }

  /** The constructor `new Cove(fromX, fromY, direction, len)`: a signed length from a
      starting cell, normalised so that left <= right and top <= bottom. */
  function NewCove(fromX: int, fromY: int, direction: int, len: int): (c: Cove)
    ensures c.left <= c.right && c.top <= c.bottom && c.direction == direction
    ensures direction == DIRECTION_H ==> c.top == c.bottom == fromY && c.right - c.left == Abs(len)
    ensures direction != DIRECTION_H ==> c.left == c.right == fromX && c.bottom - c.top == Abs(len)
  {
    if direction == DIRECTION_H then
      Cove(Min(fromX + len, fromX), fromY, Max(fromX + len, fromX), fromY, direction)
    else
      Cove(fromX, Min(fromY, fromY + len), fromX, Max(fromY, fromY + len), direction)
  }

  /** The cells of a cove are exactly the points it covers. */
  lemma CellsCover(c: Cove)
    ensures forall p: Coord :: p in c.Cells() <==> c.Covers(p.x, p.y)
  {
    var cs := c.Cells();
    forall p: Coord | c.Covers(p.x, p.y) ensures p in cs {
      if c.direction == DIRECTION_H {
        assert cs[p.x - c.left] == p;
      } else {
        assert cs[p.y - c.top] == p;
      }
    }
  }

  /** A cove built from (fromX, fromY, direction, len) lists exactly |len| cells on its
      row (horizontal) or column (vertical), starting at the smaller of from and
      from + len and stopping before the larger. */
  lemma NewCoveCells(fromX: int, fromY: int, direction: int, len: int)
    ensures var cs := NewCove(fromX, fromY, direction, len).Cells();
      |cs| == Abs(len) &&
      if direction == DIRECTION_H then
        forall k :: 0 <= k < |cs| ==> cs[k] == Coord(Min(fromX, fromX + len) + k, fromY)
      else
        forall k :: 0 <= k < |cs| ==> cs[k] == Coord(fromX, Min(fromY, fromY + len) + k)
  {
  }
}
