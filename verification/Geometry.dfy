/** Rectangles and tile coordinates (include/mari/core/types.hpp, include/mari/core/tile.hpp). */
module Geometry {

  const TILE_SIZE := 64
  const TILE_PIXELS := 4096

  datatype Size = Size(width: int, height: int) {
    predicate IsEmpty() { width <= 0 || height <= 0 }

    function Area(): Rect { Rect(0, 0, width, height) }
  }

  /** Half-open rectangle `[x, x+width) x [y, y+height)`. */
  datatype Rect = Rect(x: int, y: int, width: int, height: int) {
    function Right(): int { x + width }

    function Bottom(): int { y + height }

    predicate IsEmpty() { width <= 0 || height <= 0 }

    predicate Contains(px: int, py: int) {
      x <= px < Right() && y <= py < Bottom()
    }

    /** The intersection contains exactly the points of both. */
    function Intersected(o: Rect): (r: Rect)
      ensures forall px, py :: r.Contains(px, py) <==> Contains(px, py) && o.Contains(px, py)
      ensures r.IsEmpty() ==> r == Rect(0, 0, 0, 0)
    {
      var left := if x < o.x then o.x else x;
      var top := if y < o.y then o.y else y;
      var right := if Right() < o.Right() then Right() else o.Right();
      var bottom := if Bottom() < o.Bottom() then Bottom() else o.Bottom();
      if right <= left || bottom <= top then Rect(0, 0, 0, 0) else Rect(left, top, right - left, bottom - top)
    }

    /** The rectangle with `n` added on every side. */
    function Grown(n: int): Rect { Rect(x - n, y - n, width + 2 * n, height + 2 * n) }

    /** Bounding box of two rectangles; an empty one contributes nothing. No smaller rectangle would do. */
    function United(o: Rect): (r: Rect)
      ensures forall px, py :: Contains(px, py) || o.Contains(px, py) ==> r.Contains(px, py)
      ensures IsEmpty() ==> r == o
      ensures !IsEmpty() && o.IsEmpty() ==> r == this
      ensures !IsEmpty() && !o.IsEmpty() ==>
                && (r.x == x || r.x == o.x) && (r.Right() == Right() || r.Right() == o.Right())
                && (r.y == y || r.y == o.y) && (r.Bottom() == Bottom() || r.Bottom() == o.Bottom())
    {
      if IsEmpty() then o
      else if o.IsEmpty() then this
      else
        var left := if x < o.x then x else o.x;
        var top := if y < o.y then y else o.y;
        var right := if Right() < o.Right() then o.Right() else Right();
        var bottom := if Bottom() < o.Bottom() then o.Bottom() else Bottom();
        Rect(left, top, right - left, bottom - top)
    }
  }

  /** Index of the tile a canvas coordinate falls in. The C++ division truncates, so the negative
      side is written out; the result is the floor on both sides. */
  function TileIndexFor(c: int): (t: int)
    ensures TILE_SIZE * t <= c < TILE_SIZE * t + TILE_SIZE
  {
    if c >= 0 then c / TILE_SIZE else -((-c + TILE_SIZE - 1) / TILE_SIZE)
  }

  function TileOrigin(t: int): int { t * TILE_SIZE }

  datatype Coord = Coord(tx: int, ty: int) {
    function CanvasRect(): Rect {
      Rect(TileOrigin(tx), TileOrigin(ty), TILE_SIZE, TILE_SIZE)
    }
  }

  /** The tile holding a pixel. */
  function TileOf(x: int, y: int): (c: Coord)
    ensures c.CanvasRect().Contains(x, y)
  {
    Coord(TileIndexFor(x), TileIndexFor(y))
  }

  lemma TileOfUnique(c: Coord, x: int, y: int)
    ensures c.CanvasRect().Contains(x, y) <==> c == TileOf(x, y)
  {
  }

  /** Position of pixel `(x, y)` inside the row-major pixel buffer of tile `c`. */
  function PixelIndex(c: Coord, x: int, y: int): int {
    (y - TileOrigin(c.ty)) * TILE_SIZE + (x - TileOrigin(c.tx))
  }
}
