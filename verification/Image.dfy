/** Moving pixels between a tile map and a dense image (io/ora/src/image.cpp). */
module Image {
  import opened Geometry
  import opened Blend
  import opened Compositor
  import T = Tiles

  type Tiles = map<Coord, Tile>

  /** What can be seen of a pixel: without alpha its colour is nothing. */
  function Seen(p: Pixel): Pixel { if p.a == 0 then CLEAR else p }

  /** What can be seen of a layer's tiles at `(x, y)`. */
  function Visible(m: Tiles, x: int, y: int): Pixel {
    var c := TileOf(x, y);
    if c in m then Seen(At(m[c], x, y)) else CLEAR
  }

  /** The stored pixel, hidden colours included. */
  function Stored(m: Tiles, x: int, y: int): Pixel {
    var c := TileOf(x, y);
    if c in m then At(m[c], x, y) else CLEAR
  }

  class TileStore {
    const format: T.PixelFormat
    var tiles: Tiles

    constructor (format: T.PixelFormat, tiles: Tiles)
      ensures this.format == format && this.tiles == tiles
    {
      this.format, this.tiles := format, tiles;
    }

    /** `readRegion`: a missing tile reads as nothing. Other formats and an empty area are refused. */
    method ReadRegion(area: Rect) returns (r: Outcome, img: array2?<Pixel>)
      ensures r == if format != T.RGBA8 then Failed(Unsupported) else if area.IsEmpty() then Failed(InvalidArgument)
              else Done
      ensures img != null <==> r.Done?
      ensures img != null ==> fresh(img) && img.Length0 == area.height && img.Length1 == area.width
      ensures img != null ==> forall i, j :: 0 <= i < img.Length0 && 0 <= j < img.Length1 ==>
              img[i, j] == Stored(tiles, CanvasX(area, 0, j), CanvasY(area, 0, i))
    {
      hide At, TileIndexFor;
      if format != T.RGBA8 { return Failed(Unsupported), null; }
      if area.IsEmpty() { return Failed(InvalidArgument), null; }
      var out := new Pixel[area.height, area.width]((i, j) => CLEAR);
      var tx0, ty0 := TileIndexFor(area.x), TileIndexFor(area.y);
      var tx1, ty1 := TileIndexFor(area.Right() - 1), TileIndexFor(area.Bottom() - 1);
      var ty := ty0;
      while ty <= ty1
        invariant ty0 <= ty <= ty1 + 1
        invariant forall i, j :: 0 <= i < out.Length0 && 0 <= j < out.Length1 ==>
                    out[i, j] == if TileIndexFor(CanvasY(area, 0, i)) < ty
                      then Stored(tiles, CanvasX(area, 0, j), CanvasY(area, 0, i)) else CLEAR
      {
        var tx := tx0;
        while tx <= tx1
          invariant tx0 <= tx <= tx1 + 1
          invariant forall i, j :: 0 <= i < out.Length0 && 0 <= j < out.Length1 ==>
                      out[i, j] == if TileIndexFor(CanvasY(area, 0, i)) < ty
                        || (TileIndexFor(CanvasY(area, 0, i)) == ty && TileIndexFor(CanvasX(area, 0, j)) < tx)
                                   then Stored(tiles, CanvasX(area, 0, j), CanvasY(area, 0, i)) else CLEAR
        {
          ReadTile(Coord(tx, ty), area, out);
          tx := tx + 1;
        }
        ty := ty + 1;
      }
      r, img := Done, out;
    }

    /** The part of `area` in one tile. */
    method ReadTile(c: Coord, area: Rect, out: array2<Pixel>)
      requires !area.IsEmpty() && out.Length0 == area.height && out.Length1 == area.width
      requires forall i, j :: 0 <= i < out.Length0 && 0 <= j < out.Length1 ==>
                 TileOf(CanvasX(area, 0, j), CanvasY(area, 0, i)) == c ==> out[i, j] == CLEAR
      modifies out
      ensures forall i, j :: 0 <= i < out.Length0 && 0 <= j < out.Length1 ==>
                out[i, j] == if TileOf(CanvasX(area, 0, j), CanvasY(area, 0, i)) == c
                  then Stored(tiles, CanvasX(area, 0, j), CanvasY(area, 0, i)) else old(out[i, j])
    {
      hide At, TileIndexFor;
      if c !in tiles { return; }
      var hit := c.CanvasRect().Intersected(area);
      if hit.IsEmpty() {
        forall i, j | 0 <= i < out.Length0 && 0 <= j < out.Length1
          ensures TileOf(CanvasX(area, 0, j), CanvasY(area, 0, i)) != c
        {
          NoneInside(c, area, CanvasX(area, 0, j), CanvasY(area, 0, i));
        }
        return;
      }
      Inside(c, area, hit);
      var y := hit.y;
      while y < hit.Bottom()
        invariant hit.y <= y <= hit.Bottom()
        invariant forall i, j :: 0 <= i < out.Length0 && 0 <= j < out.Length1 ==>
                    out[i, j] == if hit.Contains(CanvasX(area, 0, j), CanvasY(area, 0, i)) && CanvasY(area, 0, i) < y
                                 then Stored(tiles, CanvasX(area, 0, j), CanvasY(area, 0, i)) else old(out[i, j])
      {
        ReadRow(c, y, hit, area, out);
        y := y + 1;
      }
      forall i, j | 0 <= i < out.Length0 && 0 <= j < out.Length1
        ensures hit.Contains(CanvasX(area, 0, j), CanvasY(area, 0, i)) <==>
                TileOf(CanvasX(area, 0, j), CanvasY(area, 0, i)) == c
      {
        TileOfUnique(c, CanvasX(area, 0, j), CanvasY(area, 0, i));
      }
    }

    method ReadRow(c: Coord, y: int, hit: Rect, area: Rect, out: array2<Pixel>)
      requires c in tiles && hit == c.CanvasRect().Intersected(area) && !hit.IsEmpty() && hit.y <= y < hit.Bottom()
      requires !area.IsEmpty() && out.Length0 == area.height && out.Length1 == area.width
      modifies out
      ensures forall i, j :: 0 <= i < out.Length0 && 0 <= j < out.Length1 ==>
                out[i, j] == if hit.Contains(CanvasX(area, 0, j), CanvasY(area, 0, i)) && CanvasY(area, 0, i) == y
                             then Stored(tiles, CanvasX(area, 0, j), CanvasY(area, 0, i)) else old(out[i, j])
    {
      hide At, TileIndexFor;
      Inside(c, area, hit);
      var x := hit.x;
      while x < hit.Right()
        invariant hit.x <= x <= hit.Right()
        invariant forall i, j :: 0 <= i < out.Length0 && 0 <= j < out.Length1 ==>
                    out[i, j] == if hit.Contains(CanvasX(area, 0, j), CanvasY(area, 0, i)) && CanvasY(area, 0, i) == y
                      && CanvasX(area, 0, j) < x
                                 then Stored(tiles, CanvasX(area, 0, j), CanvasY(area, 0, i)) else old(out[i, j])
      {
        TileOfUnique(c, x, y);
        out[y - area.y, x - area.x] := At(tiles[c], x, y);
        x := x + 1;
      }
    }

    /** `writeRegion`: a tile that would be all transparent is not made. What can be seen is the image in
        the area and what was there before elsewhere, as if every tile had been made. */
    method WriteRegion(area: Rect, img: array2<Pixel>) returns (r: Outcome)
      modifies this
      ensures r == if format != T.RGBA8 then Failed(Unsupported)
                   else if area.IsEmpty() || (img.Length0 == area.height && img.Length1 == area.width) then Done
                   else Failed(InvalidArgument)
      ensures r.Failed? || area.IsEmpty() ==> tiles == old(tiles)
      ensures r.Done? && !area.IsEmpty() ==>
              forall x, y :: Visible(tiles, x, y) == if area.Contains(x, y) then Seen(Source(img, area, x, y))
              else Visible(old(tiles), x, y)
    {
      hide Visible, Source;
      if format != T.RGBA8 { return Failed(Unsupported); }
      if area.IsEmpty() { return Done; }
      if img.Length1 != area.width || img.Length0 != area.height { return Failed(InvalidArgument); }
      var tx0, ty0 := TileIndexFor(area.x), TileIndexFor(area.y);
      var tx1, ty1 := TileIndexFor(area.Right() - 1), TileIndexFor(area.Bottom() - 1);
      var ty := ty0;
      while ty <= ty1
        invariant ty0 <= ty <= ty1 + 1
        invariant forall x, y :: Visible(tiles, x, y) == if area.Contains(x, y) && TileIndexFor(y) < ty
                  then Seen(Source(img, area, x, y)) else Visible(old(tiles), x, y)
      {
        var tx := tx0;
        while tx <= tx1
          invariant tx0 <= tx <= tx1 + 1
          invariant forall x, y :: Visible(tiles, x, y) == if area.Contains(x, y)
                    && (TileIndexFor(y) < ty || (TileIndexFor(y) == ty && TileIndexFor(x) < tx))
                                                           then Seen(Source(img, area, x, y))
                                                             else Visible(old(tiles), x, y)
        {
          WriteTile(Coord(tx, ty), area, img);
          tx := tx + 1;
        }
        ty := ty + 1;
      }
      r := Done;
    }

    method WriteTile(c: Coord, area: Rect, img: array2<Pixel>)
      requires !area.IsEmpty() && img.Length0 == area.height && img.Length1 == area.width
      modifies this
      ensures forall x, y :: Visible(tiles, x, y) == if area.Contains(x, y) && TileOf(x, y) == c
              then Seen(Source(img, area, x, y)) else Visible(old(tiles), x, y)
    {
      hide At, TileIndexFor, Source;
      var hit := c.CanvasRect().Intersected(area);
      forall x, y ensures hit.Contains(x, y) <==> area.Contains(x, y) && TileOf(x, y) == c { TileOfUnique(c, x, y); }
      if hit.IsEmpty() { return; }
      var ink := AnyInk(hit, area, img);
      if !ink && c !in tiles {
        return;
      }
      var t := if c in tiles then tiles[c] else EmptyTile();
      forall x, y | TileOf(x, y) == c ensures Seen(At(EmptyTile(), x, y)) == CLEAR { EmptyAt(x, y); }
      t := CopyRows(t, c, hit, area, img);
      tiles := tiles[c := t];
    }
  }

  function Source(img: array2<Pixel>, area: Rect, x: int, y: int): Pixel
    reads img
  {
    if 0 <= y - area.y < img.Length0 && 0 <= x - area.x < img.Length1 then img[y - area.y, x - area.x] else CLEAR
  }

  function EmptyTile(): Tile { seq(TILE_PIXELS, i => CLEAR) }

  lemma EmptyAt(x: int, y: int)
    ensures At(EmptyTile(), x, y) == CLEAR
  {
    IndexInTile(x, y);
  }

  /** Is there any alpha in the part of the image that meets a tile? */
  method AnyInk(hit: Rect, area: Rect, img: array2<Pixel>) returns (ink: bool)
    requires area.x <= hit.x && hit.Right() <= area.Right() && area.y <= hit.y && hit.Bottom() <= area.Bottom()
             && !hit.IsEmpty()
    requires img.Length0 == area.height && img.Length1 == area.width
    ensures ink <==> exists x, y :: hit.Contains(x, y) && Source(img, area, x, y).a != 0
  {
    ink := false;
    var y := hit.y;
    while y < hit.Bottom() && !ink
      invariant hit.y <= y <= hit.Bottom()
      invariant !ink ==> forall x, v :: hit.Contains(x, v) && v < y ==> Source(img, area, x, v).a == 0
      invariant ink ==> exists x, v :: hit.Contains(x, v) && Source(img, area, x, v).a != 0
    {
      var x := hit.x;
      while x < hit.Right() && !ink
        invariant hit.x <= x <= hit.Right()
        invariant !ink ==> forall u, v :: hit.Contains(u, v) && (v < y || (v == y && u < x)) ==>
                  Source(img, area, u, v).a == 0
        invariant ink ==> exists u, v :: hit.Contains(u, v) && Source(img, area, u, v).a != 0
      {
        assert Source(img, area, x, y) == img[y - area.y, x - area.x];
        if img[y - area.y, x - area.x].a != 0 {
          assert hit.Contains(x, y);
          ink := true;
        }
        x := x + 1;
      }
      y := y + 1;
    }
  }

  /** Row by row, the image over a tile. */
  method CopyRows(t: Tile, c: Coord, hit: Rect, area: Rect, img: array2<Pixel>) returns (r: Tile)
    requires hit == c.CanvasRect().Intersected(area) && !hit.IsEmpty() && !area.IsEmpty()
    requires img.Length0 == area.height && img.Length1 == area.width
    ensures forall x, y :: TileOf(x, y) == c ==>
            At(r, x, y) == if hit.Contains(x, y) then Source(img, area, x, y) else At(t, x, y)
  {
    hide Source, TileIndexFor;
    Inside(c, area, hit);
    r := t;
    var y := hit.y;
    while y < hit.Bottom()
      invariant hit.y <= y <= hit.Bottom()
      invariant forall x, v :: TileOf(x, v) == c ==>
                At(r, x, v) == if hit.Contains(x, v) && v < y then Source(img, area, x, v) else At(t, x, v)
    {
      r := CopyRow(r, c, y, hit, area, img);
      y := y + 1;
    }
  }

  method CopyRow(t: Tile, c: Coord, y: int, hit: Rect, area: Rect, img: array2<Pixel>) returns (r: Tile)
    requires hit == c.CanvasRect().Intersected(area) && !hit.IsEmpty() && hit.y <= y < hit.Bottom()
    requires img.Length0 == area.height && img.Length1 == area.width
    ensures forall x, v :: TileOf(x, v) == c ==>
            At(r, x, v) == if hit.Contains(x, v) && v == y then Source(img, area, x, v) else At(t, x, v)
  {
    Inside(c, area, hit);
    r := t;
    var x := hit.x;
    while x < hit.Right()
      invariant hit.x <= x <= hit.Right()
      invariant forall u, v :: TileOf(u, v) == c ==>
                At(r, u, v) == if hit.Contains(u, v) && v == y && u < x then Source(img, area, u, v) else At(t, u, v)
    {
      hide TileIndexFor, At;
      InTile(c, x, y);
      TileOfUnique(c, x, y);
      var k := PixelIndex(c, x, y);
      ghost var was := r;
      r := r[k := img[y - area.y, x - area.x]];
      forall u, v | TileOf(u, v) == c
        ensures At(r, u, v) == if u == x && v == y then Source(img, area, x, y) else At(was, u, v)
      {
        OtherPixel(was, c, x, y, u, v, img[y - area.y, x - area.x]);
      }
      x := x + 1;
    }
  }

  /** Different pixels of a tile have different places. */
  lemma OtherPixel(t: Tile, c: Coord, x: int, y: int, u: int, v: int, p: Pixel)
    requires TileOf(x, y) == c && TileOf(u, v) == c && 0 <= PixelIndex(c, x, y) < TILE_PIXELS
    ensures At(t[PixelIndex(c, x, y) := p], u, v) == if u == x && v == y then p else At(t, u, v)
  {
    IndexInTile(u, v);
    TileOfUnique(c, x, y);
    TileOfUnique(c, u, v);
  }

  /** Reading back what was written: every pixel that can be seen comes back. */
  method WriteThenRead(s: TileStore, area: Rect, img: array2<Pixel>) returns (back: array2?<Pixel>)
    requires s.format == T.RGBA8 && !area.IsEmpty() && img.Length0 == area.height && img.Length1 == area.width
    modifies s
    ensures back != null && back.Length0 == img.Length0 && back.Length1 == img.Length1
    ensures forall i, j :: 0 <= i < img.Length0 && 0 <= j < img.Length1 ==> Seen(back[i, j]) == Seen(img[i, j])
  {
    hide At, TileOf;
    var r := s.WriteRegion(area, img);
    r, back := s.ReadRegion(area);
    forall i, j | 0 <= i < img.Length0 && 0 <= j < img.Length1 ensures Seen(back[i, j]) == Seen(img[i, j]) {
      var x, y := CanvasX(area, 0, j), CanvasY(area, 0, i);
      assert area.Contains(x, y) && Visible(s.tiles, x, y) == Seen(Source(img, area, x, y));
      assert Seen(Stored(s.tiles, x, y)) == Visible(s.tiles, x, y);
    }
  }
}
