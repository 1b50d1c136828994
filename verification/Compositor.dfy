/** Flattening the layers to pixels (core/src/compositor.cpp). The compositor only reads the tree, so
    the tree is a value here. */
module Compositor {
  import opened Bytes
  import opened Geometry
  import opened Blend

  datatype Error = InvalidArgument | Unsupported

  datatype Outcome = Done | Failed(error: Error)

  type Tile = t: seq<Pixel> | |t| == TILE_PIXELS witness seq(TILE_PIXELS, i => CLEAR)

  type MaskTile = t: seq<u8> | |t| == TILE_PIXELS witness seq(TILE_PIXELS, i => 0)

  datatype Mask = NoMask | Reveal(tiles: map<Coord, MaskTile>)

  datatype Layer =
    | Raster(visible: bool, opacity: real, mode: BlendMode, supported: bool, tiles: map<Coord, Tile>, mask: Mask)
    | Group(visible: bool, opacity: real, mode: BlendMode, children: seq<Layer>)

  predicate Shown(l: Layer) { l.visible && l.opacity > 0.0 }

  /** Every layer that would be drawn has a pixel format the compositor knows. */
  predicate Supported(layers: seq<Layer>)
    decreases layers
  {
    forall i :: 0 <= i < |layers| ==> LayerSupported(layers[i])
  }

  predicate LayerSupported(l: Layer)
    decreases l
  {
    Shown(l) ==> match l
      case Raster(_, _, _, supported, _, _) => supported
      case Group(_, _, _, children) => Supported(children)
  }

  /** A tile without alpha is blank, whatever colours it still holds. */
  predicate IsBlank(t: Tile) { forall i :: 0 <= i < |t| ==> t[i].a == 0 }

  // ---- what one pixel becomes -------------------------------------------------------------------------

  lemma IndexInTile(x: int, y: int)
    ensures 0 <= PixelIndex(TileOf(x, y), x, y) < TILE_PIXELS
  {
  }

  function At<T>(t: seq<T>, x: int, y: int): T
    requires |t| == TILE_PIXELS
  {
    IndexInTile(x, y);
    t[PixelIndex(TileOf(x, y), x, y)]
  }

  /** A raster layer over `under` at `(x, y)`: nothing where there is no tile, a blank one, or a mask
      without a tile there. */
  function RasterPixel(mix: Mix, l: Layer, x: int, y: int, under: Pixel): Pixel
    requires l.Raster?
  {
    var c := TileOf(x, y);
    if c !in l.tiles || IsBlank(l.tiles[c]) then under
    else if l.mask.NoMask? then Over(mix, l.mode, under, At(l.tiles[c], x, y), Strength(l.opacity, 255))
    else if c !in l.mask.tiles then under
    else Over(mix, l.mode, under, At(l.tiles[c], x, y), Strength(l.opacity, At(l.mask.tiles[c], x, y)))
  }

  function LayerPixel(mix: Mix, l: Layer, x: int, y: int, under: Pixel): Pixel
    decreases l
  {
    if !Shown(l) then under
    else match l
      case Raster(_, _, _, _, _, _) => RasterPixel(mix, l, x, y, under)
      case Group(_, opacity, mode, children) =>
        if children == [] then under
        else Over(mix, mode, under, Shade(mix, children, x, y, CLEAR), Strength(opacity, 255))
  }

  /** The layers from bottom to top over `under`. */
  function Shade(mix: Mix, layers: seq<Layer>, x: int, y: int, under: Pixel): Pixel
    decreases layers
  {
    if |layers| == 0 then under
    else LayerPixel(mix, layers[|layers| - 1], x, y, Shade(mix, layers[..|layers| - 1], x, y, under))
  }

  lemma FullStrength()
    ensures Strength(1.0, 255) == 1.0
  {
  }

  /** Alone in a group, an unmasked raster layer at full opacity looks as it would without the group, in the
      group's mode. */
  lemma GroupOfOne(mix: Mix, tiles: map<Coord, Tile>, inner: BlendMode, m: BlendMode, x: int, y: int, under: Pixel)
    requires inner != Erase && m != Erase
    ensures LayerPixel(mix, Group(true, 1.0, m, [Raster(true, 1.0, inner, true, tiles, NoMask)]), x, y, under) ==
            LayerPixel(mix, Raster(true, 1.0, m, true, tiles, NoMask), x, y, under)
  {
    var l := Raster(true, 1.0, inner, true, tiles, NoMask);
    hide BlendPixel8, Blended, Strength, TileOf, IsBlank;
    FullStrength();
    assert [l][..0] == [] && Shade(mix, [l], x, y, CLEAR) == RasterPixel(mix, l, x, y, CLEAR);
    var c := TileOf(x, y);
    if c in tiles && !IsBlank(tiles[c]) {
      var s := At(tiles[c], x, y);
      OverMeans(mix, inner, CLEAR, s, 1.0);
      if s.a > 0 { OverNothing(mix, inner, CLEAR, s, 1.0, Over(mix, inner, CLEAR, s, 1.0)); }
    }
  }

  // ---- drawing into a buffer ------------------------------------------------------------------------------

  /** The buffer has room for `area` with its top left corner at `[row, col]`. */
  predicate Fits(dst: array2<Pixel>, row: nat, col: nat, area: Rect) {
    !area.IsEmpty() && row + area.height <= dst.Length0 && col + area.width <= dst.Length1
  }

  predicate InWindow(area: Rect, row: nat, col: nat, i: int, j: int) {
    row <= i < row + area.height && col <= j < col + area.width
  }

  /** Canvas coordinates of buffer cell `[i, j]`. */
  function CanvasX(area: Rect, col: nat, j: int): int { area.x + j - col }

  function CanvasY(area: Rect, row: nat, i: int): int { area.y + i - row }

  method ClearArea(dst: array2<Pixel>, row: nat, col: nat, area: Rect)
    requires Fits(dst, row, col, area)
    modifies dst
    ensures forall i, j :: 0 <= i < dst.Length0 && 0 <= j < dst.Length1 ==>
              dst[i, j] == if InWindow(area, row, col, i, j) then CLEAR else old(dst[i, j])
  {
    var y := 0;
    while y < area.height
      invariant 0 <= y <= area.height
      invariant forall i, j :: 0 <= i < dst.Length0 && 0 <= j < dst.Length1 ==>
                  dst[i, j] == if InWindow(area, row, col, i, j) && i < row + y then CLEAR else old(dst[i, j])
    {
      var x := 0;
      while x < area.width
        invariant 0 <= x <= area.width
        invariant forall i, j :: 0 <= i < dst.Length0 && 0 <= j < dst.Length1 ==>
                    dst[i, j] == if InWindow(area, row, col, i, j) && (i < row + y || (i == row + y && j < col + x))
                      then CLEAR else old(dst[i, j])
      {
        dst[row + y, col + x] := CLEAR;
        x := x + 1;
      }
      y := y + 1;
    }
  }

  /** One tile of a raster layer, row by row, where it meets `area`. */
  method CompositeTile(mix: Mix, l: Layer, c: Coord, area: Rect, dst: array2<Pixel>, row: nat, col: nat)
    requires l.Raster? && Fits(dst, row, col, area)
    modifies dst
    ensures forall i, j :: 0 <= i < dst.Length0 && 0 <= j < dst.Length1 ==>
              dst[i, j] == if InWindow(area, row, col, i, j)
                && TileOf(CanvasX(area, col, j), CanvasY(area, row, i)) == c
                           then RasterPixel(mix, l, CanvasX(area, col, j), CanvasY(area, row, i), old(dst[i, j]))
                           else old(dst[i, j])
  {
    hide Over, Strength;
    if c !in l.tiles || IsBlank(l.tiles[c]) { return; }
    if l.mask.Reveal? && c !in l.mask.tiles { return; }
    var r := c.CanvasRect().Intersected(area);
    if r.IsEmpty() {
      forall i, j | InWindow(area, row, col, i, j) ensures TileOf(CanvasX(area, col, j), CanvasY(area, row, i)) != c {
        NoneInside(c, area, CanvasX(area, col, j), CanvasY(area, row, i));
      }
      return;
    }
    var y := r.y;
    while y < r.Bottom()
      invariant r.y <= y <= r.Bottom()
      invariant forall i, j :: 0 <= i < dst.Length0 && 0 <= j < dst.Length1 ==>
                  dst[i, j] == if InWindow(area, row, col, i, j)
                    && r.Contains(CanvasX(area, col, j), CanvasY(area, row, i)) && CanvasY(area, row, i) < y
                               then RasterPixel(mix, l, CanvasX(area, col, j), CanvasY(area, row, i), old(dst[i, j]))
                               else old(dst[i, j])
    {
      CompositeRow(mix, l, c, r, y, area, dst, row, col);
      y := y + 1;
    }
  }

  /** Row `y` of the overlap `r` of tile `c` and `area`. */
  method CompositeRow(mix: Mix, l: Layer, c: Coord, r: Rect, y: int, area: Rect, dst: array2<Pixel>, row: nat, col: nat)
    requires l.Raster? && Fits(dst, row, col, area) && c in l.tiles && !IsBlank(l.tiles[c])
             && (l.mask.Reveal? ==> c in l.mask.tiles)
    requires r == c.CanvasRect().Intersected(area) && !r.IsEmpty() && r.y <= y < r.Bottom()
    modifies dst
    ensures forall i, j :: 0 <= i < dst.Length0 && 0 <= j < dst.Length1 ==>
              dst[i, j] == if InWindow(area, row, col, i, j) && r.Contains(CanvasX(area, col, j), CanvasY(area, row, i))
                && CanvasY(area, row, i) == y
                           then RasterPixel(mix, l, CanvasX(area, col, j), CanvasY(area, row, i), old(dst[i, j]))
                           else old(dst[i, j])
  {
    hide Over, Strength, Blended, IsBlank;
    Inside(c, area, r);
    var start := PixelIndex(c, r.x, y);
    InTile(c, r.x, y);
    InTile(c, r.Right() - 1, y);
    var src := l.tiles[c][start..start + r.width];
    var mask := if l.mask.Reveal? then l.mask.tiles[c][start..start + r.width] else [];
    BlendRow(mix, l.mode, dst, row + y - area.y, col + r.x - area.x, src, l.opacity, mask);
    forall x | r.x <= x < r.Right()
      ensures TileOf(x, y) == c && src[x - r.x] == At(l.tiles[c], x, y)
      ensures l.mask.Reveal? ==> mask[x - r.x] == At(l.mask.tiles[c], x, y)
    {
      TileOfUnique(c, x, y);
      assert r.Contains(x, y);
      assert PixelIndex(c, x, y) == start + (x - r.x);
    }
  }

  lemma Inside(c: Coord, area: Rect, r: Rect)
    requires r == c.CanvasRect().Intersected(area) && !r.IsEmpty()
    ensures area.x <= r.x && r.Right() <= area.Right() && area.y <= r.y && r.Bottom() <= area.Bottom()
    ensures forall x, y :: r.Contains(x, y) ==> c.CanvasRect().Contains(x, y)
    ensures c.CanvasRect().Contains(r.x, r.y) && c.CanvasRect().Contains(r.Right() - 1, r.Bottom() - 1)
  {
  }

  lemma InTile(c: Coord, x: int, y: int)
    requires c.CanvasRect().Contains(x, y)
    ensures 0 <= PixelIndex(c, x, y) < TILE_PIXELS && PixelIndex(c, x, y) % TILE_SIZE == x - TileOrigin(c.tx)
  {
    TileOfUnique(c, x, y);
    IndexInTile(x, y);
  }

  lemma NoneInside(c: Coord, area: Rect, x: int, y: int)
    requires c.CanvasRect().Intersected(area).IsEmpty() && area.Contains(x, y)
    ensures TileOf(x, y) != c
  {
    assert !c.CanvasRect().Intersected(area).Contains(x, y);
  }

  /** Only allocated tiles are visited; the rest of the layer is transparent. */
  method CompositeRaster(mix: Mix, l: Layer, area: Rect, dst: array2<Pixel>, row: nat, col: nat) returns (r: Outcome)
    requires l.Raster? && Fits(dst, row, col, area)
    modifies dst
    ensures r == if l.supported then Done else Failed(Unsupported)
    ensures r.Done? ==> forall i, j :: 0 <= i < dst.Length0 && 0 <= j < dst.Length1 ==>
              dst[i, j] == if InWindow(area, row, col, i, j)
                then RasterPixel(mix, l, CanvasX(area, col, j), CanvasY(area, row, i), old(dst[i, j]))
                           else old(dst[i, j])
  {
    hide RasterPixel;
    if !l.supported { return Failed(Unsupported); }
    var tx0, ty0 := TileIndexFor(area.x), TileIndexFor(area.y);
    var tx1, ty1 := TileIndexFor(area.Right() - 1), TileIndexFor(area.Bottom() - 1);
    var ty := ty0;
    while ty <= ty1
      invariant ty0 <= ty <= ty1 + 1
      invariant forall i, j :: 0 <= i < dst.Length0 && 0 <= j < dst.Length1 ==>
                  dst[i, j] == if InWindow(area, row, col, i, j) && TileIndexFor(CanvasY(area, row, i)) < ty
                               then RasterPixel(mix, l, CanvasX(area, col, j), CanvasY(area, row, i), old(dst[i, j]))
                               else old(dst[i, j])
    {
      var tx := tx0;
      while tx <= tx1
        invariant tx0 <= tx <= tx1 + 1
        invariant forall i, j :: 0 <= i < dst.Length0 && 0 <= j < dst.Length1 ==>
                    dst[i, j] == if InWindow(area, row, col, i, j)
                                    && (TileIndexFor(CanvasY(area, row, i)) < ty
                                       || (TileIndexFor(CanvasY(area, row, i)) == ty
                                         && TileIndexFor(CanvasX(area, col, j)) < tx))
                                 then RasterPixel(mix, l, CanvasX(area, col, j), CanvasY(area, row, i), old(dst[i, j]))
                                 else old(dst[i, j])
      {
        CompositeTile(mix, l, Coord(tx, ty), area, dst, row, col);
        tx := tx + 1;
      }
      ty := ty + 1;
    }
    r := Done;
  }

  /** The result of a group, as one piece. */
  method CompositeBuffer(mix: Mix, mode: BlendMode, opacity: real, area: Rect, dst: array2<Pixel>, row: nat, col: nat,
          src: array2<Pixel>)
    requires Fits(dst, row, col, area) && src.Length0 == area.height && src.Length1 == area.width && src != dst
    modifies dst
    ensures forall i, j :: 0 <= i < dst.Length0 && 0 <= j < dst.Length1 ==>
              dst[i, j] == if InWindow(area, row, col, i, j)
                then Over(mix, mode, old(dst[i, j]), src[i - row, j - col], Strength(opacity, 255))
                           else old(dst[i, j])
  {
    hide Over, Strength, Blended;
    var y := 0;
    while y < area.height
      invariant 0 <= y <= area.height
      invariant forall i, j :: 0 <= i < dst.Length0 && 0 <= j < dst.Length1 ==>
                  dst[i, j] == if InWindow(area, row, col, i, j) && i < row + y
                    then Over(mix, mode, old(dst[i, j]), src[i - row, j - col], Strength(opacity, 255))
                               else old(dst[i, j])
    {
      var line := RowOf(src, y);
      BlendRow(mix, mode, dst, row + y, col, line, opacity, []);
      y := y + 1;
    }
  }

  method RowOf(src: array2<Pixel>, y: nat) returns (line: seq<Pixel>)
    requires y < src.Length0
    ensures |line| == src.Length1 && forall j :: 0 <= j < |line| ==> line[j] == src[y, j]
  {
    line := [];
    while |line| < src.Length1
      invariant |line| <= src.Length1 && forall j :: 0 <= j < |line| ==> line[j] == src[y, j]
    {
      line := line + [src[y, |line|]];
    }
  }

  method CompositeLayer(mix: Mix, l: Layer, area: Rect, dst: array2<Pixel>, row: nat, col: nat) returns (r: Outcome)
    requires Fits(dst, row, col, area)
    modifies dst
    ensures r == if LayerSupported(l) then Done else Failed(Unsupported)
    ensures r.Done? ==> forall i, j :: 0 <= i < dst.Length0 && 0 <= j < dst.Length1 ==>
              dst[i, j] == if InWindow(area, row, col, i, j)
                then LayerPixel(mix, l, CanvasX(area, col, j), CanvasY(area, row, i), old(dst[i, j]))
                           else old(dst[i, j])
    decreases l
  {
    hide RasterPixel, Over, Strength;
    if !l.visible || l.opacity <= 0.0 { return Done; }
    match l {
      case Group(_, opacity, mode, children) =>
        if children == [] { return Done; }
        var tmp := new Pixel[area.height, area.width]((i, j) => CLEAR);
        r := CompositeList(mix, children, area, tmp, 0, 0);
        if r.Failed? { return r; }
        CompositeBuffer(mix, mode, opacity, area, dst, row, col, tmp);
      case Raster(_, _, _, _, _, _) =>
        r := CompositeRaster(mix, l, area, dst, row, col);
    }
  }

  /** From bottom to top. A group is composited on its own first, then laid over as one piece. */
  method CompositeList(mix: Mix, layers: seq<Layer>, area: Rect, dst: array2<Pixel>, row: nat, col: nat)
          returns (r: Outcome)
    requires Fits(dst, row, col, area)
    modifies dst
    ensures r == if Supported(layers) then Done else Failed(Unsupported)
    ensures r.Done? ==> forall i, j :: 0 <= i < dst.Length0 && 0 <= j < dst.Length1 ==>
              dst[i, j] == if InWindow(area, row, col, i, j)
                then Shade(mix, layers, CanvasX(area, col, j), CanvasY(area, row, i), old(dst[i, j]))
                           else old(dst[i, j])
    decreases layers
  {
    hide RasterPixel, Over, Strength, CanvasX, CanvasY;
    var k := 0;
    while k < |layers|
      invariant 0 <= k <= |layers|
      invariant forall i :: 0 <= i < k ==> LayerSupported(layers[i])
      invariant forall i, j :: 0 <= i < dst.Length0 && 0 <= j < dst.Length1 ==>
                  dst[i, j] == if InWindow(area, row, col, i, j)
                    then Shade(mix, layers[..k], CanvasX(area, col, j), CanvasY(area, row, i), old(dst[i, j]))
                               else old(dst[i, j])
    {
      assert layers[..k + 1][..k] == layers[..k];
      r := CompositeLayer(mix, layers[k], area, dst, row, col);
      if r.Failed? { return r; }
      k := k + 1;
    }
    assert layers[..k] == layers;
    r := Done;
  }

  // ---- the two entries ---------------------------------------------------------------------------------------

  /** The buffer shows `layers` on the whole of `area`. */
  ghost predicate Shows(mix: Mix, layers: seq<Layer>, area: Rect, dst: array2<Pixel>)
    reads dst
  {
    forall i, j :: 0 <= i < dst.Length0 && 0 <= j < dst.Length1 && InWindow(area, 0, 0, i, j) ==>
      dst[i, j] == Shade(mix, layers, CanvasX(area, 0, j), CanvasY(area, 0, i), CLEAR)
  }

  method CompositeArea(mix: Mix, roots: seq<Layer>, area: Rect, dst: array2?<Pixel>) returns (r: Outcome)
    requires dst != null && !area.IsEmpty() ==> area.height <= dst.Length0
    modifies dst
    ensures r == if area.IsEmpty() then Done
            else if dst == null || dst.Length1 < area.width then Failed(InvalidArgument)
                 else if Supported(roots) then Done else Failed(Unsupported)
    ensures dst != null && r.Done? ==> Shows(mix, roots, area, dst)
    ensures dst != null && r.Done? ==>
            forall i, j :: 0 <= i < dst.Length0 && 0 <= j < dst.Length1 && !InWindow(area, 0, 0, i, j) ==>
            dst[i, j] == old(dst[i, j])
  {
    hide Shade, Supported;
    if area.IsEmpty() { return Done; }
    if dst == null { return Failed(InvalidArgument); }
    if dst.Length1 < area.width { return Failed(InvalidArgument); }
    ClearArea(dst, 0, 0, area);
    r := CompositeList(mix, roots, area, dst, 0, 0);
  }

  predicate Before(a: Coord, b: Coord) { a.ty < b.ty || (a.ty == b.ty && a.tx < b.tx) }

  /** `dedupDirtyTiles`: in row order, each once. */
  method DedupDirtyTiles(tiles: seq<Coord>) returns (r: seq<Coord>)
    ensures forall i, j :: 0 <= i < j < |r| ==> Before(r[i], r[j])
    ensures forall c :: c in r <==> c in tiles
  {
    r := [];
    var k := 0;
    while k < |tiles|
      invariant 0 <= k <= |tiles|
      invariant forall i, j :: 0 <= i < j < |r| ==> Before(r[i], r[j])
      invariant forall c :: c in r <==> c in tiles[..k]
    {
      var p := 0;
      while p < |r| && Before(r[p], tiles[k])
        invariant 0 <= p <= |r| && forall i :: 0 <= i < p ==> Before(r[i], tiles[k])
      {
        p := p + 1;
      }
      assert tiles[..k + 1] == tiles[..k] + [tiles[k]];
      if p == |r| || r[p] != tiles[k] {
        r := r[..p] + [tiles[k]] + r[p..];
      }
      k := k + 1;
    }
    assert tiles[..k] == tiles;
  }

  predicate Touches(dirty: seq<Coord>, area: Rect) {
    exists c :: c in dirty && !c.CanvasRect().Intersected(area).IsEmpty()
  }

  /** Recomposites the dirty tiles only; `was` is the tree the buffer showed before. If the two trees
      look alike outside the dirty tiles, the buffer then shows the new tree everywhere. */
  method CompositeDirty(mix: Mix, roots: seq<Layer>, dirty: seq<Coord>, area: Rect, dst: array2?<Pixel>,
          ghost was: seq<Layer>) returns (r: Outcome)
    requires dst != null && !area.IsEmpty() ==> area.height <= dst.Length0
    modifies dst
    ensures r == if dirty == [] || area.IsEmpty() then Done
            else if dst == null || dst.Length1 < area.width then Failed(InvalidArgument)
                 else if Supported(roots) || !Touches(dirty, area) then Done else Failed(Unsupported)
    ensures dst != null && r.Done? && !area.IsEmpty() && dirty != [] ==>
              forall i, j :: 0 <= i < dst.Length0 && 0 <= j < dst.Length1 ==>
                dst[i, j] == if InWindow(area, 0, 0, i, j) && TileOf(CanvasX(area, 0, j), CanvasY(area, 0, i)) in dirty
                             then Shade(mix, roots, CanvasX(area, 0, j), CanvasY(area, 0, i), CLEAR) else old(dst[i, j])
    ensures dst != null && r.Done? && old(Shows(mix, was, area, dst)) && AlikeOutside(mix, was, roots, dirty, area) ==>
            Shows(mix, roots, area, dst)
  {
    hide Shade, Supported, TileIndexFor;
    if dirty == [] || area.IsEmpty() { return Done; }
    if dst == null { return Failed(InvalidArgument); }
    if dst.Length1 < area.width { return Failed(InvalidArgument); }
    var unique := DedupDirtyTiles(dirty);
    var k := 0;
    while k < |unique|
      invariant 0 <= k <= |unique|
      invariant !Supported(roots) ==> !Touches(unique[..k], area)
      invariant forall i, j :: 0 <= i < dst.Length0 && 0 <= j < dst.Length1 ==>
                  dst[i, j] == if InWindow(area, 0, 0, i, j)
                    && TileOf(CanvasX(area, 0, j), CanvasY(area, 0, i)) in unique[..k]
                               then Shade(mix, roots, CanvasX(area, 0, j), CanvasY(area, 0, i), CLEAR)
                                 else old(dst[i, j])
    {
      assert unique[..k + 1] == unique[..k] + [unique[k]];
      r := RepaintTile(mix, roots, unique[k], area, dst);
      if r.Failed? {
        assert unique[k] in dirty;
        return r;
      }
      k := k + 1;
    }
    assert unique[..k] == unique;
    r := Done;
  }

  /** The trees look alike on every pixel of `area` outside the dirty tiles. */
  ghost predicate AlikeOutside(mix: Mix, was: seq<Layer>, now: seq<Layer>, dirty: seq<Coord>, area: Rect) {
    forall x, y :: area.Contains(x, y) && TileOf(x, y) !in dirty ==>
        Shade(mix, was, x, y, CLEAR) == Shade(mix, now, x, y, CLEAR)
  }

  /** Clears and composites the part of `area` in tile `c`; a tile off screen is dropped. */
  method RepaintTile(mix: Mix, roots: seq<Layer>, c: Coord, area: Rect, dst: array2<Pixel>) returns (r: Outcome)
    requires Fits(dst, 0, 0, area)
    modifies dst
    ensures r == if Supported(roots) || c.CanvasRect().Intersected(area).IsEmpty() then Done else Failed(Unsupported)
    ensures r.Done? ==> forall i, j :: 0 <= i < dst.Length0 && 0 <= j < dst.Length1 ==>
              dst[i, j] == if InWindow(area, 0, 0, i, j) && TileOf(CanvasX(area, 0, j), CanvasY(area, 0, i)) == c
                           then Shade(mix, roots, CanvasX(area, 0, j), CanvasY(area, 0, i), CLEAR) else old(dst[i, j])
  {
    hide Shade, Supported, TileOf;
    var o := c.CanvasRect().Intersected(area);
    if o.IsEmpty() {
      forall i, j | InWindow(area, 0, 0, i, j) ensures TileOf(CanvasX(area, 0, j), CanvasY(area, 0, i)) != c {
        NoneInside(c, area, CanvasX(area, 0, j), CanvasY(area, 0, i));
      }
      return Done;
    }
    Inside(c, area, o);
    var row, col := o.y - area.y, o.x - area.x;
    ClearArea(dst, row, col, o);
    r := CompositeList(mix, roots, o, dst, row, col);
    forall i, j | 0 <= i < dst.Length0 && 0 <= j < dst.Length1
      ensures InWindow(o, row, col, i, j) <==>
              InWindow(area, 0, 0, i, j) && TileOf(CanvasX(area, 0, j), CanvasY(area, 0, i)) == c
    {
      TileOfUnique(c, CanvasX(area, 0, j), CanvasY(area, 0, i));
      assert o.Contains(CanvasX(area, 0, j), CanvasY(area, 0, i)) <==> InWindow(o, row, col, i, j);
    }
  }

  // ---- where an edit shows -----------------------------------------------------------------------------------

  function TileAt<T>(tiles: map<Coord, T>, c: Coord): seq<T> { if c in tiles then [tiles[c]] else [] }

  /** The layers are the same but for tiles and mask tiles in `dirty`. */
  predicate SameOutside(a: Layer, b: Layer, c: Coord)
    decreases a
  {
    a.visible == b.visible && a.opacity == b.opacity && a.mode == b.mode &&
    match a
    case Raster(_, _, _, _, tiles, mask) =>
      && b.Raster? && TileAt(tiles, c) == TileAt(b.tiles, c)
      && mask.Reveal? == b.mask.Reveal? && (mask.Reveal? ==> TileAt(mask.tiles, c) == TileAt(b.mask.tiles, c))
    case Group(_, _, _, children) => b.Group? && ListSameOutside(children, b.children, c)
  }

  predicate ListSameOutside(a: seq<Layer>, b: seq<Layer>, c: Coord)
    decreases a
  {
    |a| == |b| && forall i :: 0 <= i < |a| ==> SameOutside(a[i], b[i], c)
  }

  /** Painting shows only in the painted tiles, through groups, masks and every skip. */
  lemma {:induction false} EditsStay(mix: Mix, a: seq<Layer>, b: seq<Layer>, x: int, y: int, under: Pixel)
    requires ListSameOutside(a, b, TileOf(x, y))
    ensures Shade(mix, a, x, y, under) == Shade(mix, b, x, y, under)
    decreases a
  {
    hide Over, Strength, At, IsBlank;
    if |a| > 0 {
      var n := |a| - 1;
      EditsStay(mix, a[..n], b[..n], x, y, under);
      LayerEditsStay(mix, a[n], b[n], x, y, Shade(mix, a[..n], x, y, under));
    }
  }

  lemma {:induction false} LayerEditsStay(mix: Mix, a: Layer, b: Layer, x: int, y: int, under: Pixel)
    requires SameOutside(a, b, TileOf(x, y))
    ensures LayerPixel(mix, a, x, y, under) == LayerPixel(mix, b, x, y, under)
    decreases a
  {
    hide Over, Strength, At, IsBlank;
    if a.Group? {
      EditsStay(mix, a.children, b.children, x, y, CLEAR);
    } else {
      var c := TileOf(x, y);
      assert c in a.tiles <==> c in b.tiles;
      assert c in a.tiles ==> TileAt(a.tiles, c)[0] == TileAt(b.tiles, c)[0];
      if a.mask.Reveal? {
        assert c in a.mask.tiles <==> c in b.mask.tiles;
        assert c in a.mask.tiles ==> TileAt(a.mask.tiles, c)[0] == TileAt(b.mask.tiles, c)[0];
      }
    }
  }

  /** So a tree edited only in the dirty tiles is repainted correctly by `CompositeDirty`. */
  lemma EditedTilesSuffice(mix: Mix, was: seq<Layer>, now: seq<Layer>, dirty: seq<Coord>, area: Rect)
    requires forall c :: c !in dirty ==> ListSameOutside(was, now, c)
    ensures AlikeOutside(mix, was, now, dirty, area)
  {
    hide Shade, ListSameOutside, TileIndexFor;
    forall x, y | area.Contains(x, y) && TileOf(x, y) !in dirty
      ensures Shade(mix, was, x, y, CLEAR) == Shade(mix, now, x, y, CLEAR)
    {
      EditsStay(mix, was, now, x, y, CLEAR);
    }
  }

  // ---- the skips change nothing ------------------------------------------------------------------------------

  /** The picture a compositor without shortcuts would make: every pixel of every visible layer is
      blended; where there is no tile the source is transparent, where there is no mask tile the mask is 0. */
  function Plain(mix: Mix, layers: seq<Layer>, x: int, y: int, under: Pixel): Pixel
    decreases layers
  {
    if |layers| == 0 then under
    else PlainLayer(mix, layers[|layers| - 1], x, y, Plain(mix, layers[..|layers| - 1], x, y, under))
  }

  function PlainLayer(mix: Mix, l: Layer, x: int, y: int, under: Pixel): Pixel
    decreases l
  {
    if !l.visible then under
    else match l
      case Group(_, opacity, mode, children) =>
        BlendPixel8(mix, mode, under, Plain(mix, children, x, y, CLEAR), Strength(opacity, 255))
      case Raster(_, opacity, mode, _, tiles, mask) =>
        var c := TileOf(x, y);
        var source := if c in tiles then At(tiles[c], x, y) else CLEAR;
        var unmasked := if mask.NoMask? then 255 else if c in mask.tiles then At(mask.tiles[c], x, y) else 0;
        BlendPixel8(mix, mode, under, source, Strength(opacity, unmasked))
  }

  lemma NoStrengthAt(opacity: real, mask: u8)
    requires opacity <= 0.0 || mask == 0
    ensures Strength(opacity, mask) == 0.0
  {
  }

  /** Missing and blank tiles, missing mask tiles, zero opacity and empty groups may be skipped. */
  lemma {:induction false} SkipsAreInvisible(mix: Mix, layers: seq<Layer>, x: int, y: int, under: Pixel)
    ensures Shade(mix, layers, x, y, under) == Plain(mix, layers, x, y, under)
    decreases layers
  {
    if |layers| > 0 {
      var n := |layers| - 1;
      SkipsAreInvisible(mix, layers[..n], x, y, under);
      LayerSkipsAreInvisible(mix, layers[n], x, y, Plain(mix, layers[..n], x, y, under));
    }
  }

  lemma {:induction false} LayerSkipsAreInvisible(mix: Mix, l: Layer, x: int, y: int, under: Pixel)
    ensures LayerPixel(mix, l, x, y, under) == PlainLayer(mix, l, x, y, under)
    decreases l
  {
    hide Over, Strength, BlendPixel8;
    match l {
      case Group(_, opacity, mode, children) =>
        SkipsAreInvisible(mix, children, x, y, CLEAR);
        var source := Plain(mix, children, x, y, CLEAR);
        OverIsBlend(mix, mode, under, source, Strength(opacity, 255));
        if opacity <= 0.0 { NoStrengthAt(opacity, 255); }
        if opacity <= 0.0 || children == [] { BlendNothing(mix, mode, under, source, Strength(opacity, 255)); }
      case Raster(_, opacity, mode, _, tiles, mask) =>
        RasterSkipsAreInvisible(mix, l, x, y, under);
    }
  }

  lemma RasterSkipsAreInvisible(mix: Mix, l: Layer, x: int, y: int, under: Pixel)
    requires l.Raster?
    ensures LayerPixel(mix, l, x, y, under) == PlainLayer(mix, l, x, y, under)
  {
    hide Over, Strength, BlendPixel8, TileIndexFor;
    var c := TileOf(x, y);
    var source := if c in l.tiles then At(l.tiles[c], x, y) else CLEAR;
    var unmasked := if l.mask.NoMask? then 255 else if c in l.mask.tiles then At(l.mask.tiles[c], x, y) else 0;
    var extra := Strength(l.opacity, unmasked);
    OverIsBlend(mix, l.mode, under, source, extra);
    if l.opacity <= 0.0 || unmasked == 0 { NoStrengthAt(l.opacity, unmasked); }
    if c in l.tiles && IsBlank(l.tiles[c]) { IndexInTile(x, y); }
    if l.opacity <= 0.0 || unmasked == 0 || source.a == 0 { BlendNothing(mix, l.mode, under, source, extra); }
  }
}
