/** Making selections out of rectangles and layer tiles, and what `isAll` and `isEmpty` can tell
    (core/src/selection.cpp, include/mari/core/selection.hpp). */
module SelectionMaking {
  import opened Bytes
  import opened Geometry
  import S = Selection
  import T = Tiles

  /** Everything on the canvas has value `v`. */
  ghost predicate Flat(m: S.Sparse, v: u8) {
    forall x, y :: m.canvas.Area().Contains(x, y) ==> S.Value(m, x, y) == v
  }

  /** A minimal mask has no tiles exactly when it is flat at `outside`. So `isAll` and `isEmpty` never
      lie, but they see a flat mask only where `outside` already agrees with it. */
  lemma NoTilesIffFlat(m: S.Sparse)
    requires S.WellFormed(m)
    ensures m.tiles == map[] <==> Flat(m, m.outside)
  {
    hide S.Value;
    if Flat(m, m.outside) {
      forall c ensures c !in m.tiles { Unseen(m, c); }
      assert m.tiles == map[];
    }
    if m.tiles == map[] { NoTilesFlat(m); }
  }

  lemma Unseen(m: S.Sparse, c: Coord)
    requires S.WellFormed(m) && Flat(m, m.outside)
    ensures c !in m.tiles
  {
  }

  lemma NoTilesFlat(m: S.Sparse)
    requires m.tiles == map[]
    ensures Flat(m, m.outside)
  {
  }

  /** Two touching halves make up everything, and the mask that says so is not `isAll`: its tiles are
      all 255 over an `outside` of 0. Inverted, it selects nothing and is not `isEmpty`. */
  method HalvesUnited() returns (all: S.SelectionMask, none: S.SelectionMask)
    ensures all.Valid() && Flat(all.View(), 255) && !all.IsAll()
    ensures none.Valid() && Flat(none.View(), 0) && !none.IsEmpty()
  {
    hide S.SelectionMask.Valid, S.Value, Flat;
    all := LeftAndRight();
    none := LeftAndRight();
    ghost var was := none.View();
    none.Invert();
    InvertedFlat(was, none.View());
  }

  lemma InvertedFlat(a: S.Sparse, b: S.Sparse)
    requires Flat(a, 255) && b.canvas == a.canvas
    requires forall x, y :: S.Value(b, x, y) == if b.canvas.Area().Contains(x, y) then 255 - S.Value(a, x, y) else 0
    ensures Flat(b, 0)
  {
    hide S.Value;
  }

  method LeftAndRight() returns (m: S.SelectionMask)
    ensures fresh(m) && m.Valid() && m.outside == 0
    ensures Flat(m.View(), 255)
  {
    hide S.SelectionMask.Valid, S.Value;
    var canvas := Size(128, 64);
    m := FromRect(canvas, Rect(0, 0, 64, 64));
    var right := FromRect(canvas, Rect(64, 0, 64, 64));
    var ok := m.Combine(right, S.Union);
  }

  /** `fromRect`. */
  method FromRect(canvas: Size, r: Rect) returns (m: S.SelectionMask)
    ensures fresh(m) && m.Valid() && m.canvas == canvas
    ensures forall x, y :: m.ValueAt(x, y) == if r.Contains(x, y) && canvas.Area().Contains(x, y) then 255 else 0
    ensures m.outside == if !canvas.IsEmpty() && r.Intersected(canvas.Area()) == canvas.Area() then 255 else 0
  {
    hide S.Minimal, S.Tight;
    m := new S.SelectionMask(canvas, 0);
    var clipped := r.Intersected(canvas.Area());
    if clipped.IsEmpty() { return; }
    if clipped == canvas.Area() {
      m := new S.SelectionMask(canvas, 255);
      return;
    }
    m.FillRect(clipped, 255);
    m.Normalize();
  }

  /** The source image of `fromTiles`: the judged pixels of one tile. */
  function Judged<P>(px: seq<P>, judge: P -> u8): (r: seq<u8>)
    ensures |r| == |px| && forall i :: 0 <= i < |px| ==> r[i] == judge(px[i])
  {
    seq(|px|, i requires 0 <= i < |px| => judge(px[i]))
  }

  /** What a selection made from layer tiles should hold at a canvas point. */
  ghost function FromLayer<P>(src: map<Coord, seq<P>>, judge: P -> u8, outside: u8, x: int, y: int): u8
    requires forall c :: c in src ==> |src[c]| == TILE_PIXELS
  {
    var c := TileOf(x, y);
    if c in src then PixelInside(x, y); judge(src[c][PixelIndex(c, x, y)]) else outside
  }

  lemma PixelInside(x: int, y: int)
    ensures 0 <= PixelIndex(TileOf(x, y), x, y) < TILE_PIXELS
  {
  }

  lemma NoTileThere<P>(src: map<Coord, seq<P>>, judge: P -> u8, outside: u8, x: int, y: int)
    requires (forall c :: c in src ==> |src[c]| == TILE_PIXELS) && TileOf(x, y) !in src
    ensures FromLayer(src, judge, outside, x, y) == outside
  {
  }

  /** `fromTiles`: every allocated tile is judged pixel by pixel; where there is none the selection has
      its starting value. Which order the tiles come in does not matter. Only RGBA8 layers are taken. */
  method FromTiles<P>(canvas: Size, format: T.PixelFormat, src: map<Coord, seq<P>>, outsideValue: u8, judge: P -> u8)
    returns (ok: bool, m: S.SelectionMask)
    requires forall c :: c in src ==> |src[c]| == TILE_PIXELS
    ensures ok <==> format == T.RGBA8
    ensures fresh(m) && m.Valid() && m.canvas == canvas
    ensures ok ==> forall x, y :: canvas.Area().Contains(x, y) ==>
            m.ValueAt(x, y) == FromLayer(src, judge, if outsideValue != 0 then 255 else 0, x, y)
  {
    hide S.Minimal, S.Tight, FromLayer;
    var outside: u8 := if outsideValue != 0 then 255 else 0;
    m := new S.SelectionMask(canvas, outside);
    if format != T.RGBA8 { return false, m; }
    ok := true;
    forall x, y | TileOf(x, y) !in src
      ensures FromLayer(src, judge, outside, x, y) == outside
    {
      NoTileThere(src, judge, outside, x, y);
    }
    var todo := src.Keys;
    while todo != {}
      invariant todo <= src.Keys && fresh(m) && m.canvas == canvas && m.outside == outside && S.Shaped(m.View())
      invariant forall x, y :: canvas.Area().Contains(x, y) ==>
                  S.Stored(m.View(), x, y) == if TileOf(x, y) in todo then outside
                    else FromLayer(src, judge, outside, x, y)
      decreases |todo|
    {
      var c :| c in todo;
      AddJudged(m, c, src, judge, outside);
      todo := todo - {c};
    }
    m.Normalize();
  }

  method AddJudged<P>(m: S.SelectionMask, c: Coord, src: map<Coord, seq<P>>, judge: P -> u8, ghost outside: u8)
    requires (forall d :: d in src ==> |src[d]| == TILE_PIXELS) && c in src && S.Shaped(m.View())
    modifies m`tiles, m`boundsValid
    ensures S.Shaped(m.View())
    ensures forall x, y :: m.canvas.Area().Contains(x, y) ==>
              S.Stored(m.View(), x, y) == if TileOf(x, y) == c then FromLayer(src, judge, outside, x, y)
                else old(S.Stored(m.View(), x, y))
  {
    hide S.Stored;
    if c.CanvasRect().Intersected(m.canvas.Area()).IsEmpty() {
      forall x, y | m.canvas.Area().Contains(x, y) ensures TileOf(x, y) != c {
        TileOfUnique(c, x, y);
        assert !c.CanvasRect().Intersected(m.canvas.Area()).Contains(x, y);
      }
      return;
    }
    ghost var image := (x, y) => FromLayer(src, judge, outside, x, y);
    var buf := Judged(src[c], judge);
    forall x, y | c.CanvasRect().Intersected(m.canvas.Area()).Contains(x, y)
      ensures 0 <= S.SourceIndex(c.CanvasRect(), TILE_SIZE, x, y) < |buf|
              && buf[S.SourceIndex(c.CanvasRect(), TILE_SIZE, x, y)] == image(x, y)
    {
      TileOfUnique(c, x, y);
      PixelInside(x, y);
    }
    m.WriteRegion(c.CanvasRect(), buf, TILE_SIZE, image);
    forall x, y ensures c.CanvasRect().Contains(x, y) <==> TileOf(x, y) == c { TileOfUnique(c, x, y); }
  }
}
