/** The sparse selection mask (core/src/selection.cpp): 64x64 tiles plus one `outside` value stand
    for a dense function over the canvas. Every operation is specified on that dense function. */
module Selection {
  import opened Bytes
  import opened Geometry
  import D = Distance

  /** The stored state: a tile that is absent reads as `outside` everywhere. */
  datatype Sparse = Sparse(tiles: map<Coord, seq<u8>>, outside: u8, canvas: Size)

  /** Pixel `(x, y)` of the buffer of tile `c`. */
  function Peek(px: seq<u8>, c: Coord, x: int, y: int): u8 {
    if 0 <= PixelIndex(c, x, y) < |px| then px[PixelIndex(c, x, y)] else 0
  }

  /** What the tiles say at `(x, y)`, whether or not the point is on the canvas. */
  function Stored(m: Sparse, x: int, y: int): u8 {
    var c := TileOf(x, y);
    if c in m.tiles then Peek(m.tiles[c], c, x, y) else m.outside
  }

  /** The dense function: off the canvas nothing is selected. */
  function Value(m: Sparse, x: int, y: int): u8 {
    if m.canvas.Area().Contains(x, y) then Stored(m, x, y) else 0
  }

  ghost predicate Shaped(m: Sparse) {
    forall c :: c in m.tiles ==> |m.tiles[c]| == TILE_PIXELS
  }

  /** Tile `c` differs from `outside` at some pixel of the canvas. */
  ghost predicate Shows(m: Sparse, c: Coord) {
    exists x, y :: c == TileOf(x, y) && m.canvas.Area().Contains(x, y) && Stored(m, x, y) != m.outside
  }

  /** Minimality: no stored tile could be dropped without changing the dense function. */
  ghost predicate Minimal(m: Sparse) {
    forall c :: c in m.tiles ==> Shows(m, c)
  }

  ghost predicate WellFormed(m: Sparse) {
    Shaped(m) && Minimal(m) && (m.outside == 0 || m.outside == 255)
  }

  // ---- bounding boxes -------------------------------------------------------------------

  /** Part of the plane a tile loop has dealt with. */
  datatype Region = Everywhere | TilesBefore(tx: int, ty: int) | OneTile(c: Coord)

  /** The selected (nonzero) pixels of a mask in a region. */
  datatype Points = Points(m: Sparse, where: Region) {
    predicate Has(x: int, y: int) {
      && Value(m, x, y) != 0
      && match where {
        case Everywhere => true
        case TilesBefore(tx, ty) => Before(TileOf(x, y), tx, ty)
        case OneTile(c) => TileOf(x, y) == c
      }
    }
  }

  ghost predicate OnColumn(s: Points, x: int) { exists y :: s.Has(x, y) }

  ghost predicate OnRow(s: Points, y: int) { exists x :: s.Has(x, y) }

  /** `r` is the smallest rectangle around the points of `s`, and the zero rectangle if none. */
  ghost predicate Tight(r: Rect, s: Points) {
    && (forall x, y :: s.Has(x, y) ==> r.Contains(x, y))
    && (if r.IsEmpty() then r == Rect(0, 0, 0, 0)
        else OnColumn(s, r.x) && OnColumn(s, r.Right() - 1) && OnRow(s, r.y) && OnRow(s, r.Bottom() - 1))
  }

  /** The first `i` tiles of `coords` are combined, the others are still those of `m0`. */
  ghost predicate CombinedTo(m: Sparse, m0: Sparse, o0: Sparse, coords: seq<Coord>, i: nat, op: Op) {
    && (forall c :: c !in coords ==> c !in m.tiles)
    && (forall j :: i <= j < |coords| ==> (coords[j] in m.tiles <==> coords[j] in m0.tiles))
    && (forall j :: i <= j < |coords| && coords[j] in m.tiles ==> m.tiles[coords[j]] == m0.tiles[coords[j]])
    && (forall j, x, y :: 0 <= j < i <= |coords| && TileOf(x, y) == coords[j] && m.canvas.Area().Contains(x, y) ==>
          Stored(m, x, y) == ApplyOp(Stored(m0, x, y), Stored(o0, x, y), op))
  }

  lemma CombineStart(m: Sparse, m0: Sparse, o0: Sparse, coords: seq<Coord>, op: Op)
    requires m.tiles == m0.tiles && forall c :: c in m0.tiles ==> c in coords
    ensures CombinedTo(m, m0, o0, coords, 0, op)
  {
  }

  lemma StillThere(m: Sparse, m0: Sparse, o0: Sparse, coords: seq<Coord>, i: nat, op: Op)
    requires CombinedTo(m, m0, o0, coords, i, op) && i < |coords|
    ensures coords[i] in m.tiles <==> coords[i] in m0.tiles
    ensures coords[i] in m.tiles ==> m.tiles[coords[i]] == m0.tiles[coords[i]]
  {
  }

  lemma CombineNext(m: Sparse, m': Sparse, m0: Sparse, o0: Sparse, coords: seq<Coord>, i: nat, op: Op)
    requires CombinedTo(m, m0, o0, coords, i, op) && i < |coords| && m'.canvas == m.canvas && m'.outside == m.outside
    requires forall j, k :: 0 <= j < k < |coords| ==> coords[j] != coords[k]
    requires forall d :: d != coords[i] ==>
             (d in m'.tiles <==> d in m.tiles) && (d in m'.tiles ==> m'.tiles[d] == m.tiles[d])
    requires forall x, y :: TileOf(x, y) == coords[i] && m.canvas.Area().Contains(x, y) ==>
                              Stored(m', x, y) == ApplyOp(Stored(m0, x, y), Stored(o0, x, y), op)
    ensures CombinedTo(m', m0, o0, coords, i + 1, op)
  {
    hide Rect.Contains, ApplyOp, TileOf;
    forall j, x, y | 0 <= j < i && TileOf(x, y) == coords[j] && m.canvas.Area().Contains(x, y)
      ensures Stored(m', x, y) == ApplyOp(Stored(m0, x, y), Stored(o0, x, y), op)
    {
      assert Stored(m', x, y) == Stored(m, x, y);
    }
  }

  lemma CombineEnd(m: Sparse, m0: Sparse, o0: Sparse, coords: seq<Coord>, op: Op)
    requires CombinedTo(m, m0, o0, coords, |coords|, op) && m.outside == ApplyOp(m0.outside, o0.outside, op)
    requires forall c :: c in m0.tiles || c in o0.tiles ==> c in coords
    ensures forall x, y :: m.canvas.Area().Contains(x, y) ==>
                             Stored(m, x, y) == ApplyOp(Stored(m0, x, y), Stored(o0, x, y), op)
  {
    hide Rect.Contains, ApplyOp, TileOf;
    forall x, y | m.canvas.Area().Contains(x, y)
      ensures Stored(m, x, y) == ApplyOp(Stored(m0, x, y), Stored(o0, x, y), op)
    {
      if TileOf(x, y) in coords {
        var j :| 0 <= j < |coords| && TileOf(x, y) == coords[j];
      }
    }
  }

  /** All selected pixels of a mask. */
  function Selected(m: Sparse): Points { Points(m, Everywhere) }

  /** The selected pixels of one tile. */
  function SelectedIn(m: Sparse, c: Coord): Points { Points(m, OneTile(c)) }

  /** The selected pixels of the tiles visited before `(tx, ty)`. */
  function SelectedBefore(m: Sparse, tx: int, ty: int): Points { Points(m, TilesBefore(tx, ty)) }

  lemma TightUnited(a: Rect, s: Points, b: Rect, t: Points, u: Points)
    requires Tight(a, s) && Tight(b, t)
    requires forall x, y :: u.Has(x, y) <==> s.Has(x, y) || t.Has(x, y)
    ensures Tight(a.United(b), u)
  {
    hide Points.Has;
    forall x | OnColumn(s, x) || OnColumn(t, x) ensures OnColumn(u, x) {
      if OnColumn(s, x) { var y :| s.Has(x, y); assert u.Has(x, y); } else { var y :| t.Has(x, y); assert u.Has(x, y); }
    }
    forall y | OnRow(s, y) || OnRow(t, y) ensures OnRow(u, y) {
      if OnRow(s, y) { var x :| s.Has(x, y); assert u.Has(x, y); } else { var x :| t.Has(x, y); assert u.Has(x, y); }
    }
  }

  lemma TightSame(a: Rect, s: Points, u: Points)
    requires Tight(a, s)
    requires forall x, y :: u.Has(x, y) <==> s.Has(x, y)
    ensures Tight(a, u)
  {
    hide Points.Has;
    forall x | OnColumn(s, x) ensures OnColumn(u, x) { var y :| s.Has(x, y); assert u.Has(x, y); }
    forall y | OnRow(s, y) ensures OnRow(u, y) { var x :| s.Has(x, y); assert u.Has(x, y); }
  }

  lemma NothingBefore(m: Sparse)
    ensures Tight(Rect(0, 0, 0, 0), SelectedBefore(m, 0, 0))
  {
  }

  lemma EmptyCanvas(m: Sparse)
    requires m.canvas.IsEmpty()
    ensures Tight(Rect(0, 0, 0, 0), Selected(m))
  {
  }

  lemma AddTile(m: Sparse, acc: Rect, b: Rect, tx: int, ty: int)
    requires Tight(acc, SelectedBefore(m, tx, ty)) && Tight(b, SelectedIn(m, Coord(tx, ty)))
    ensures Tight(acc.United(b), SelectedBefore(m, tx + 1, ty))
  {
    TightUnited(acc, SelectedBefore(m, tx, ty), b, SelectedIn(m, Coord(tx, ty)), SelectedBefore(m, tx + 1, ty));
  }

  /** Past the last tile column the loop has covered the whole row. */
  lemma NextRow(m: Sparse, acc: Rect, tx: int, ty: int)
    requires tx == TileIndexFor(m.canvas.width - 1) + 1
    requires Tight(acc, SelectedBefore(m, tx, ty))
    ensures Tight(acc, SelectedBefore(m, 0, ty + 1))
  {
    TightSame(acc, SelectedBefore(m, tx, ty), SelectedBefore(m, 0, ty + 1));
  }

  lemma AllRows(m: Sparse, acc: Rect, ty: int)
    requires ty == TileIndexFor(m.canvas.height - 1) + 1
    requires Tight(acc, SelectedBefore(m, 0, ty))
    ensures Tight(acc, Selected(m))
  {
    TightSame(acc, SelectedBefore(m, 0, ty), Selected(m));
  }

  /** The running minima and maxima of a tile scan. */
  datatype Extent = Extent(minx: int, maxx: int, miny: int, maxy: int) {
    predicate Includes(x: int, y: int) { minx <= x <= maxx && miny <= y <= maxy }

    function Box(): Rect {
      if maxx >= minx && maxy >= miny then Rect(minx, miny, maxx + 1 - minx, maxy + 1 - miny) else Rect(0, 0, 0, 0)
    }

    function Grown(x: int, y: int): Extent {
      Extent(if x < minx then x else minx, if maxx < x then x else maxx, if y < miny then y
        else miny, if maxy < y then y else maxy)
    }
  }

  /** At the end of the scan the extent is the tight box. */
  lemma ExtentBox(s: Points, e: Extent, tr: Rect)
    requires !tr.IsEmpty() && Attained(s, e, tr) && ScannedTo(s, e, tr.x, tr.Bottom())
    requires forall x, y :: s.Has(x, y) ==> tr.Contains(x, y)
    ensures Tight(e.Box(), s)
  {
    hide Points.Has;
    forall x, y | s.Has(x, y)
      ensures e.Includes(x, y) && e.Box().Contains(x, y)
    {
      assert tr.Contains(x, y);
    }
    if e.minx <= e.maxx && e.miny <= e.maxy { BoxFound(s, e); }
  }

  lemma BoxFound(s: Points, e: Extent)
    requires e.minx <= e.maxx && e.miny <= e.maxy && forall x, y :: s.Has(x, y) ==> e.Box().Contains(x, y)
    requires OnColumn(s, e.minx) && OnColumn(s, e.maxx) && OnRow(s, e.miny) && OnRow(s, e.maxy)
    ensures Tight(e.Box(), s)
  {
    hide OnColumn, OnRow, Points.Has;
  }

  /** Either nothing was found in `tr` yet, or each of the four extremes is attained. */
  ghost predicate Attained(s: Points, e: Extent, tr: Rect) {
    || e == Extent(tr.Right(), tr.x - 1, tr.Bottom(), tr.y - 1)
    || (e.minx <= e.maxx && e.miny <= e.maxy && tr.Contains(e.minx, e.miny) && tr.Contains(e.maxx, e.maxy)
        && OnColumn(s, e.minx) && OnColumn(s, e.maxx) && OnRow(s, e.miny) && OnRow(s, e.maxy))
  }

  /** All points of `s` scanned before `(x, y)` in row-major order are included. */
  ghost predicate ScannedTo(s: Points, e: Extent, x: int, y: int) {
    forall px, py :: s.Has(px, py) && (py < y || (py == y && px < x)) ==> e.Includes(px, py)
  }

  lemma GrowAttained(s: Points, e: Extent, tr: Rect, x: int, y: int)
    requires Attained(s, e, tr) && s.Has(x, y) && tr.Contains(x, y)
    ensures Attained(s, e.Grown(x, y), tr)
  {
    assert OnColumn(s, x) && OnRow(s, y);
  }

  // ---- dropping tiles --------------------------------------------------------------------

  lemma ShowsAlike(m: Sparse, n: Sparse, c: Coord)
    requires m.outside == n.outside && m.canvas == n.canvas
    requires c in m.tiles && c in n.tiles && m.tiles[c] == n.tiles[c]
    ensures Shows(m, c) <==> Shows(n, c)
  {
    forall x, y | c == TileOf(x, y) ensures Stored(m, x, y) == Stored(n, x, y) {}
  }

  /** Dropping tiles that show nothing leaves the dense function alone. */
  lemma SameDense(m: Sparse, n: Sparse)
    requires m.outside == n.outside && m.canvas == n.canvas
    requires forall c :: c in n.tiles ==> c in m.tiles && n.tiles[c] == m.tiles[c]
    requires forall c :: c in m.tiles && c !in n.tiles ==> !Shows(m, c)
    ensures forall x, y :: Value(m, x, y) == Value(n, x, y)
  {
    forall x, y
      ensures Value(m, x, y) == Value(n, x, y)
    {
      var c := TileOf(x, y);
      if m.canvas.Area().Contains(x, y) && c in m.tiles && c !in n.tiles {
        assert !Shows(m, c);
      }
    }
  }

  // ---- combining values -----------------------------------------------------------------

  datatype Op = Replace | Union | Subtract | Intersect | Xor

  lemma ScaledByte(a: u8, b: u8)
    ensures 0 <= a * b / 255 <= a
  {
    assert 0 <= a * b <= a * 255;
  }

  /** `applyOp`; integer division truncates as in the source, where both operands are positive. */
  function ApplyOp(a: u8, b: u8, op: Op): u8 {
    match op
    case Replace => b
    case Union => if a < b then b else a
    case Subtract => ScaledByte(a, 255 - b); a * (255 - b) / 255
    case Intersect => ScaledByte(a, b); a * b / 255
    case Xor => if a < b then b - a else a - b
  }

  /** What each operation asks of two degrees of selection: the second one, the larger one, the share of
      the first that the second leaves or takes, rounded down, or the distance. */
  predicate Combines(op: Op, a: u8, b: u8, r: u8) {
    match op
    case Replace => r == b
    case Union => a <= r && b <= r && (r == a || r == b)
    case Subtract => 255 * r <= a * (255 - b) < 255 * (r + 1)
    case Intersect => 255 * r <= a * b < 255 * (r + 1)
    case Xor => r == a - b || r == b - a
  }

  lemma OpCombines(a: u8, b: u8, op: Op)
    ensures Combines(op, a, b, ApplyOp(a, b, op))
  {
  }

  /** Pixels are selected wholly or not at all. */
  ghost predicate Sharp(m: Sparse) { forall x, y :: Value(m, x, y) == 0 || Value(m, x, y) == 255 }

  /** The pixels selected wholly. */
  ghost function Chosen(m: Sparse): iset<(int, int)> { iset x, y | Value(m, x, y) == 255 :: (x, y) }

  /** The operations on sets of pixels. */
  ghost function OnSets(op: Op, a: iset<(int, int)>, b: iset<(int, int)>): iset<(int, int)> {
    match op
    case Replace => b
    case Union => a + b
    case Subtract => a - b
    case Intersect => a * b
    case Xor => (a - b) + (b - a)
  }

  /** What the tiles hold makes the dense functions combine. */
  lemma CombinedView(a: Sparse, b: Sparse, r: Sparse, op: Op)
    requires a.canvas == b.canvas == r.canvas
    requires forall x, y :: r.canvas.Area().Contains(x, y) ==>
                              Value(r, x, y) == ApplyOp(Value(a, x, y), Value(b, x, y), op)
    ensures forall x, y :: Combines(op, Value(a, x, y), Value(b, x, y), Value(r, x, y))
    ensures Sharp(a) && Sharp(b) ==> Sharp(r) && Chosen(r) == OnSets(op, Chosen(a), Chosen(b))
  {
    hide Stored, ApplyOp, Combines, Sharp, Chosen, OnSets;
    forall x, y
      ensures Combines(op, Value(a, x, y), Value(b, x, y), Value(r, x, y))
    {
      if r.canvas.Area().Contains(x, y) {
        OpCombines(Value(a, x, y), Value(b, x, y), op);
      } else {
        NothingCombines(op);
      }
    }
    if Sharp(a) && Sharp(b) { CombinedSets(a, b, r, op); }
  }

  lemma FlatOp(a: u8, b: u8, op: Op)
    requires (a == 0 || a == 255) && (b == 0 || b == 255)
    ensures ApplyOp(a, b, op) == 0 || ApplyOp(a, b, op) == 255
  {
  }

  lemma NothingCombines(op: Op)
    ensures Combines(op, 0, 0, 0)
  {
  }

  lemma SharpCombines(op: Op, a: u8, b: u8, r: u8)
    requires Combines(op, a, b, r) && (a == 0 || a == 255) && (b == 0 || b == 255)
    ensures r == 0 || r == 255
    ensures r == 255 <==> match op
                          case Replace => b == 255
                          case Union => a == 255 || b == 255
                          case Subtract => a == 255 && b == 0
                          case Intersect => a == 255 && b == 255
                          case Xor => a != b
  {
  }

  /** On sharp masks the operations are those on sets. */
  lemma CombinedSets(a: Sparse, b: Sparse, r: Sparse, op: Op)
    requires Sharp(a) && Sharp(b)
    requires forall x, y :: Combines(op, Value(a, x, y), Value(b, x, y), Value(r, x, y))
    ensures Sharp(r) && Chosen(r) == OnSets(op, Chosen(a), Chosen(b))
  {
    hide Value, Combines;
    forall x, y
      ensures Value(r, x, y) == 0 || Value(r, x, y) == 255
      ensures (x, y) in Chosen(r) <==> (x, y) in OnSets(op, Chosen(a), Chosen(b))
    {
      SharpCombines(op, Value(a, x, y), Value(b, x, y), Value(r, x, y));
    }
    assert Chosen(r) == OnSets(op, Chosen(a), Chosen(b));
  }

  // ---- the mask -------------------------------------------------------------------------

  /** Bytes `[at, at + |s|)` of a buffer replaced by `s`: `memset` and `memcpy`. */
  function Blit(t: seq<u8>, at: int, s: seq<u8>): (r: seq<u8>)
    requires 0 <= at && at + |s| <= |t|
    ensures |r| == |t|
    ensures forall i :: 0 <= i < |t| ==> r[i] == if at <= i < at + |s| then s[i - at] else t[i]
  {
    t[..at] + s + t[at + |s|..]
  }

  function Inverted(t: seq<u8>): (r: seq<u8>)
    ensures |r| == |t| && forall i :: 0 <= i < |t| ==> r[i] == 255 - t[i]
  {
    seq(|t|, i requires 0 <= i < |t| => 255 - t[i])
  }

  /** `n` has the tiles of `m`, each flipped, and the flipped `outside`. */
  ghost predicate Opposite(m: Sparse, n: Sparse) {
    && Shaped(m) && Shaped(n) && n.canvas == m.canvas && n.outside == 255 - m.outside
    && n.tiles.Keys == m.tiles.Keys
    && forall c :: c in m.tiles ==> n.tiles[c] == Inverted(m.tiles[c])
  }

  lemma OppositeDense(m: Sparse, n: Sparse)
    requires Opposite(m, n)
    ensures forall x, y :: Value(n, x, y) == if m.canvas.Area().Contains(x, y) then 255 - Value(m, x, y) else 0
  {
  }

  /** Where `writeRegion` reads the source byte for canvas point `(x, y)`. */
  function SourceIndex(area: Rect, stride: int, x: int, y: int): int {
    (y - area.y) * stride + (x - area.x)
  }

  /** Tile `c` comes before `(tx, ty)` in the row-major order of the tile loops. */
  predicate Before(c: Coord, tx: int, ty: int) {
    c.ty < ty || (c.ty == ty && c.tx < tx)
  }

  /** The tile loops of a rectangle visit exactly the tiles of its points. */
  lemma TilesOfRect(r: Rect)
    ensures forall x, y :: r.Contains(x, y) ==>
                             && TileIndexFor(r.x) <= TileOf(x, y).tx <= TileIndexFor(r.Right() - 1)
                             && TileIndexFor(r.y) <= TileOf(x, y).ty <= TileIndexFor(r.Bottom() - 1)
  {
  }

  /** Inside `r` the source buffer holds the dense image `image`. */
  ghost predicate Holds(src: seq<u8>, area: Rect, stride: int, r: Rect, image: (int, int) -> u8) {
    forall x, y {:trigger SourceIndex(area, stride, x, y)} ::
      r.Contains(x, y) ==>
        0 <= SourceIndex(area, stride, x, y) < |src| && src[SourceIndex(area, stride, x, y)] == image(x, y)
  }

  function Max0(n: int): nat { if n < 0 then 0 else n }

  /** The first `k` rows of an image over `area`, packed without gaps. */
  ghost predicate RowMajor(out: seq<u8>, area: Rect, k: int, image: (int, int) -> u8) {
    && |out| == k * area.width
    && forall i, j :: D.Inside(area.width, k, i, j) ==>
                        D.CellOk(area.width, k, i, j) && out[D.Cell(area.width, i, j)] == image(area.x + i, area.y + j)
  }

  lemma AppendRow(out: seq<u8>, row: seq<u8>, area: Rect, k: int, image: (int, int) -> u8)
    requires 0 <= k && 0 <= area.width && RowMajor(out, area, k, image) && |row| == area.width
    requires forall i :: 0 <= i < area.width ==> row[i] == image(area.x + i, area.y + k)
    ensures RowMajor(out + row, area, k + 1, image)
  {
    var w := area.width;
    assert |out + row| == (k + 1) * w;
    forall i, j | D.Inside(w, k + 1, i, j)
      ensures D.CellOk(w, k + 1, i, j) && (out + row)[D.Cell(w, i, j)] == image(area.x + i, area.y + j)
    {
      D.CellBounds(w, k + 1, i, j);
      if j < k {
        assert D.Inside(w, k, i, j);
      } else {
        assert D.Cell(w, i, j) == |out| + i;
      }
    }
  }

  lemma RowMajorHolds(out: seq<u8>, area: Rect, image: (int, int) -> u8)
    requires RowMajor(out, area, area.height, image)
    ensures Holds(out, area, area.width, area, image)
  {
    forall x, y | area.Contains(x, y)
      ensures 0 <= SourceIndex(area, area.width, x, y) < |out|
              && out[SourceIndex(area, area.width, x, y)] == image(x, y)
    {
      assert D.Inside(area.width, area.height, x - area.x, y - area.y);
      assert SourceIndex(area, area.width, x, y) == D.Cell(area.width, x - area.x, y - area.y);
    }
  }

  /** One row of the source, as the `memcpy` of `writeRegion` takes it. */
  method SourceRow(src: seq<u8>, area: Rect, stride: int, tr: Rect, y: int, ghost image: (int, int) -> u8)
    returns (row: seq<u8>)
    requires Holds(src, area, stride, tr, image) && tr.Contains(tr.x, y)
    ensures |row| == tr.width
    ensures forall x :: tr.x <= x < tr.Right() ==> row[x - tr.x] == image(x, y)
  {
    var at := SourceIndex(area, stride, tr.x, y);
    assert tr.Contains(tr.Right() - 1, y);
    assert SourceIndex(area, stride, tr.Right() - 1, y) == at + tr.width - 1;
    row := src[at..at + tr.width];
    forall x | tr.x <= x < tr.Right()
      ensures row[x - tr.x] == image(x, y)
    {
      assert tr.Contains(x, y);
      assert SourceIndex(area, stride, x, y) == at + (x - tr.x);
    }
  }

  // ---- growing and shrinking --------------------------------------------------------------

  const FAR: real := 100000000000000000000.0

  function Abs(n: int): nat { if n < 0 then -n else n }

  function SquaredDistance(px: int, py: int, x: int, y: int): int {
    Square(x - px) + Square(y - py)
  }

  function Square(n: int): (r: int)
    ensures 0 <= r
  {
    n * n
  }

  /** Growing measures the distance to selected points, shrinking to unselected ones. Points off
      the canvas have value 0, so they count as unselected. */
  predicate Seed(m: Sparse, step: int, x: int, y: int) {
    if step > 0 then Value(m, x, y) >= 128 else Value(m, x, y) < 128
  }

  /** A pixel counts as selected when more than half of it is. */
  lemma SeedIsMajority(m: Sparse, step: int, x: int, y: int)
    ensures Seed(m, step, x, y) <==> (step > 0) == (2 * Value(m, x, y) > 255)
  {
  }

  /** Some seed lies in the closed disk of radius `|step|` around `(x, y)`. */
  ghost predicate Near(m: Sparse, step: int, x: int, y: int) {
    exists px, py :: Seed(m, step, px, py) && SquaredDistance(px, py, x, y) <= step * step
  }

  /** The result of `expand` at a canvas pixel. */
  ghost function Expanded(m: Sparse, step: int, x: int, y: int): u8 {
    if (step > 0) == Near(m, step, x, y) then 255 else 0
  }

  lemma RootBound(a: int, r: int)
    requires 0 <= r && a * a <= r * r
    ensures -r <= a <= r
  {
  }

  lemma InDisk(dx: int, dy: int, r: int)
    requires 0 <= r && dx * dx + dy * dy <= r * r
    ensures -r <= dx <= r && -r <= dy <= r
  {
    RootBound(dx, r);
    RootBound(dy, r);
  }

  lemma DiskBounds(px: int, py: int, x: int, y: int, r: int)
    requires 0 <= r && SquaredDistance(px, py, x, y) <= r * r
    ensures x - r <= px <= x + r && y - r <= py <= y + r
  {
    InDisk(x - px, y - py, r);
  }

  lemma Translate(qx: int, qy: int, x: int, y: int, ox: int, oy: int)
    ensures SquaredDistance(qx, qy, x - ox, y - oy) == SquaredDistance(ox + qx, oy + qy, x, y) >= 0
  {
    hide Square;
  }

  /** Grown far enough, the bounding box reaches every pixel near a selected one. */
  lemma NearIsInside(m: Sparse, step: int, seed: Rect, x: int, y: int)
    requires step > 0 && Tight(seed, Selected(m)) && Near(m, step, x, y)
    ensures seed.Grown(step).Contains(x, y)
  {
    hide Value;
    var px, py :| Seed(m, step, px, py) && SquaredDistance(px, py, x, y) <= step * step;
    assert Selected(m).Has(px, py);
    DiskBounds(px, py, x, y, step);
  }

  /** Off the window `work` nothing is selected before, and nothing is after. */
  lemma OutsideWork(m: Sparse, step: int, seed: Rect, work: Rect, x: int, y: int)
    requires step != 0 && Tight(seed, Selected(m)) && m.canvas.Area().Contains(x, y)
    requires work == (if step > 0 then seed.Grown(step) else seed).Intersected(m.canvas.Area())
    requires !work.Contains(x, y)
    ensures Value(m, x, y) == 0 == Expanded(m, step, x, y)
  {
    hide Value;
    assert !Selected(m).Has(x, y);
    if step > 0 {
      if Near(m, step, x, y) { NearIsInside(m, step, seed, x, y); }
    } else {
      assert Seed(m, step, x, y) && SquaredDistance(x, y, x, y) == 0 <= step * step;
    }
  }

  /** Height of the field at a point: 0 on seeds, out of reach elsewhere. */
  function SeedHeight(m: Sparse, step: int, x: int, y: int): real {
    if Seed(m, step, x, y) then 0.0 else FAR
  }

  /** `f` holds the seed heights of the window `field`, row by row. */
  ghost predicate IsSeedField(m: Sparse, step: int, field: Rect, f: seq<real>) {
    && D.Field(f, field.width, field.height)
    && forall x, y :: D.Inside(field.width, field.height, x, y) ==>
                        D.Column(f, field.width, field.height, x)[y] == SeedHeight(m, step, field.x + x, field.y + y)
  }

  lemma RealSquare(a: int, b: int)
    ensures (a as real - b as real) * (a as real - b as real) == Square(a - b) as real
  {
    assert (a - b) as real == a as real - b as real;
  }

  lemma LimitBelowFar(step: int)
    requires Abs(step) < 0x8000_0000
    ensures 0.0 <= (step * step) as real < FAR
  {
    var g := Abs(step);
    assert step * step == g * g;
    D.MulMono(g, 0x8000_0000, g);
    D.MulMono(g, 0x8000_0000, 0x8000_0000);
  }

  lemma ConeHeight(m: Sparse, step: int, field: Rect, f: seq<real>, px: int, py: int, x: int, y: int)
    requires IsSeedField(m, step, field, f) && D.Inside(field.width, field.height, px, py)
             && D.CellOk(field.width, field.height, px, py)
    ensures D.Cone(f, field.width, px, py, x, y) ==
            SquaredDistance(px, py, x, y) as real + SeedHeight(m, step, field.x + px, field.y + py)
  {
    assert D.Column(f, field.width, field.height, px)[py] == f[D.Cell(field.width, px, py)];
    RealSquare(x, px);
    RealSquare(y, py);
  }

  /** A seed within reach lies in the padded window and pulls the minimum down to its distance. */
  lemma NearLowers(m: Sparse, step: int, work: Rect, field: Rect, f: seq<real>, x: int, y: int, d2: real)
    requires Abs(step) < 0x8000_0000 && work.Contains(x, y)
    requires field == work.Grown(Abs(step) + 1) && IsSeedField(m, step, field, f)
    requires D.IsLower2(f, field.width, field.height, x - field.x, y - field.y, d2)
    requires Near(m, step, x, y)
    ensures d2 <= (step * step) as real
  {
    hide Value, D.Column, D.Cone, SquaredDistance;
    var w, h := field.width, field.height;
    var px, py :| Seed(m, step, px, py) && SquaredDistance(px, py, x, y) <= step * step;
    assert step * step == Abs(step) * Abs(step);
    DiskBounds(px, py, x, y, Abs(step));
    var qx, qy := px - field.x, py - field.y;
    assert D.Inside(w, h, qx, qy);
    assert D.CellOk(w, h, qx, qy) by { D.CellBounds(w, h, qx, qy); }
    ConeHeight(m, step, field, f, qx, qy, x - field.x, y - field.y);
    Translate(qx, qy, x, y, field.x, field.y);
  }

  /** A minimum within the limit is attained at a seed. */
  lemma LowIsNear(m: Sparse, step: int, field: Rect, f: seq<real>, x: int, y: int, d2: real)
    requires Abs(step) < 0x8000_0000
    requires IsSeedField(m, step, field, f)
    requires D.IsLower2(f, field.width, field.height, x - field.x, y - field.y, d2)
    requires d2 <= (step * step) as real
    ensures Near(m, step, x, y)
  {
    hide Value, D.Column, D.Cone, SquaredDistance;
    var w, h := field.width, field.height;
    LimitBelowFar(step);
    var qx, qy :| D.Inside(w, h, qx, qy) && D.CellOk(w, h, qx, qy)
        && d2 == D.Cone(f, w, qx, qy, x - field.x, y - field.y);
    ConeHeight(m, step, field, f, qx, qy, x - field.x, y - field.y);
    var px, py := field.x + qx, field.y + qy;
    Translate(qx, qy, x, y, field.x, field.y);
    assert Seed(m, step, px, py);
  }

  /** The transformed field tells exactly whether a seed lies in the disk, although only the padded
      window was ever looked at. */
  lemma FieldDecides(m: Sparse, step: int, work: Rect, field: Rect, f: seq<real>, x: int, y: int, d2: real)
    requires Abs(step) < 0x8000_0000 && work.Contains(x, y)
    requires field == work.Grown(Abs(step) + 1) && IsSeedField(m, step, field, f)
    requires D.IsLower2(f, field.width, field.height, x - field.x, y - field.y, d2)
    ensures d2 <= (step * step) as real <==> Near(m, step, x, y)
  {
    if Near(m, step, x, y) { NearLowers(m, step, work, field, f, x, y, d2); }
    if d2 <= (step * step) as real { LowIsNear(m, step, field, f, x, y, d2); }
  }

  /** The window arithmetic of `expand` stays inside `i32`. */
  predicate FitsI32(canvas: Size, step: int) {
    && canvas.width + 2 * Abs(step) + 2 <= 0x7fff_ffff && canvas.height + 2 * Abs(step) + 2 <= 0x7fff_ffff
    && 2 * Abs(step) + 2 <= 0x7fff_ffff
  }

  lemma SeedFieldShape(m: Sparse, step: int, field: Rect, f: seq<real>)
    requires IsSeedField(m, step, field, f)
    ensures D.Field(f, field.width, field.height)
  {
  }

  /** The early exits of `expand`: a full mask cannot grow, an empty one neither grows nor shrinks. */
  lemma FlatExpands(m: Sparse, step: int)
    requires step != 0 && m.tiles == map[] && (m.outside == 0 || (m.outside == 255 && step > 0))
    ensures forall x, y :: m.canvas.Area().Contains(x, y) ==> Value(m, x, y) == Expanded(m, step, x, y)
  {
    forall x, y | m.canvas.Area().Contains(x, y)
      ensures Value(m, x, y) == Expanded(m, step, x, y)
    {
      assert SquaredDistance(x, y, x, y) == 0 <= step * step;
      if m.outside == 0 && step > 0 {
        assert forall px, py :: !Seed(m, step, px, py);
      } else {
        assert Seed(m, step, x, y);
      }
    }
  }

  lemma WithinCanvas(work: Rect, canvas: Size)
    requires !work.IsEmpty()
    requires forall x, y :: work.Contains(x, y) ==> canvas.Area().Contains(x, y)
    ensures work.width <= canvas.width && work.height <= canvas.height
  {
    assert work.Contains(work.x, work.y) && work.Contains(work.Right() - 1, work.Bottom() - 1);
  }

  class SelectionMask {
    var tiles: map<Coord, seq<u8>>
    var canvas: Size
    var outside: u8
    var boundsCache: Rect
    var boundsValid: bool

    function View(): Sparse
      reads this
    {
      Sparse(tiles, outside, canvas)
    }

    ghost predicate Valid()
      reads this
    {
      WellFormed(View()) && (boundsValid ==> Tight(boundsCache, Selected(View())))
    }

    function ValueAt(x: int, y: int): u8
      reads this
    {
      Value(View(), x, y)
    }

    predicate IsAll()
      reads this
    {
      outside == 255 && |tiles| == 0
    }

    predicate IsEmpty()
      reads this
    {
      outside == 0 && |tiles| == 0
    }

    constructor (canvas: Size, outside: u8)
      requires outside == 0 || outside == 255
      ensures Valid() && View() == Sparse(map[], outside, canvas)
    {
      tiles, this.canvas, this.outside := map[], canvas, outside;
      boundsCache, boundsValid := Rect(0, 0, 0, 0), false;
    }

    /** Makes tile `c` present, filled with `outside` if it is new: no stored value changes. */
    method WritableTile(c: Coord)
      requires Shaped(View())
      modifies this`tiles, this`boundsValid
      ensures Shaped(View()) && tiles.Keys == old(tiles.Keys) + {c} && !boundsValid
      ensures forall d :: d in old(tiles) ==> tiles[d] == old(tiles[d])
      ensures forall x, y :: Stored(View(), x, y) == old(Stored(View(), x, y))
    {
      if c !in tiles {
        var fill := outside;
        tiles := tiles[c := seq(TILE_PIXELS, _ => fill)];
      }
      boundsValid := false;
    }

    /** Overwrites part of one row of a tile with one row of a dense image. */
    method PaintRow(c: Coord, x0: int, y0: int, row: seq<u8>, ghost image: (int, int) -> u8)
      requires Shaped(View()) && c in tiles && 0 < |row|
      requires c.CanvasRect().Contains(x0, y0) && c.CanvasRect().Contains(x0 + |row| - 1, y0)
      requires forall x :: x0 <= x < x0 + |row| ==> row[x - x0] == image(x, y0)
      modifies this`tiles
      ensures Shaped(View()) && tiles.Keys == old(tiles.Keys)
      ensures forall x, y :: Stored(View(), x, y) ==
                             if y == y0 && x0 <= x < x0 + |row| then image(x, y) else old(Stored(View(), x, y))
    {
      tiles := tiles[c := Blit(tiles[c], PixelIndex(c, x0, y0), row)];
      forall x, y
        ensures Stored(View(), x, y) ==
                if y == y0 && x0 <= x < x0 + |row| then image(x, y) else old(Stored(View(), x, y))
      {
        TileOfUnique(c, x, y);
      }
    }

    method FillTile(c: Coord, tr: Rect, v: u8)
      requires Shaped(View()) && !tr.IsEmpty()
      requires forall x, y :: tr.Contains(x, y) ==> c.CanvasRect().Contains(x, y)
      modifies this`tiles, this`boundsValid
      ensures Shaped(View()) && tiles.Keys == old(tiles.Keys) + {c} && !boundsValid
      ensures forall x, y :: Stored(View(), x, y) == if tr.Contains(x, y) then v else old(Stored(View(), x, y))
    {
      hide Stored, Holds;
      ghost var m0 := View();
      WritableTile(c);
      assert tr.Contains(tr.x, tr.y) && tr.Contains(tr.Right() - 1, tr.Bottom() - 1);
      var y := tr.y;
      while y < tr.Bottom()
        invariant tr.y <= y <= tr.Bottom()
        invariant Shaped(View()) && tiles.Keys == m0.tiles.Keys + {c} && !boundsValid
        invariant forall px, py :: Stored(View(), px, py) == if tr.Contains(px, py) && py < y then v
                  else Stored(m0, px, py)
      {
        PaintRow(c, tr.x, y, seq(tr.width, _ => v), (_, _) => v);
        y := y + 1;
      }
    }

    method CopyTile(c: Coord, tr: Rect, area: Rect, src: seq<u8>, stride: int, ghost image: (int, int) -> u8)
      requires Shaped(View()) && !tr.IsEmpty() && Holds(src, area, stride, tr, image)
      requires forall x, y :: tr.Contains(x, y) ==> c.CanvasRect().Contains(x, y)
      modifies this`tiles, this`boundsValid
      ensures Shaped(View()) && tiles.Keys == old(tiles.Keys) + {c} && !boundsValid
      ensures forall x, y :: Stored(View(), x, y) == if tr.Contains(x, y) then image(x, y)
              else old(Stored(View(), x, y))
    {
      hide Stored, Holds;
      ghost var m0 := View();
      WritableTile(c);
      assert tr.Contains(tr.x, tr.y) && tr.Contains(tr.Right() - 1, tr.Bottom() - 1);
      var y := tr.y;
      while y < tr.Bottom()
        invariant tr.y <= y <= tr.Bottom()
        invariant Shaped(View()) && tiles.Keys == m0.tiles.Keys + {c} && !boundsValid
        invariant forall px, py :: Stored(View(), px, py) ==
                                   if tr.Contains(px, py) && py < y then image(px, py) else Stored(m0, px, py)
      {
        var row := SourceRow(src, area, stride, tr, y, image);
        PaintRow(c, tr.x, y, row, image);
        y := y + 1;
      }
    }

    /** The part of `fillRect` inside one tile. */
    method FillTileIn(c: Coord, r: Rect, v: u8)
      requires Shaped(View())
      modifies this`tiles, this`boundsValid
      ensures Shaped(View())
      ensures forall x, y :: Stored(View(), x, y) == if r.Contains(x, y) && TileOf(x, y) == c then v
              else old(Stored(View(), x, y))
    {
      var tr := c.CanvasRect().Intersected(r);
      if !tr.IsEmpty() {
        FillTile(c, tr, v);
      }
      forall x, y
        ensures tr.Contains(x, y) <==> r.Contains(x, y) && TileOf(x, y) == c
      {
        TileOfUnique(c, x, y);
      }
    }

    /** Sets every point of `area` that lies on the canvas to `v`. */
    method FillRect(area: Rect, v: u8)
      requires Shaped(View())
      modifies this`tiles, this`boundsValid
      ensures Shaped(View())
      ensures forall x, y :: Stored(View(), x, y) ==
                             if area.Contains(x, y) && canvas.Area().Contains(x, y) then v
                                 else old(Stored(View(), x, y))
    {
      var r := area.Intersected(canvas.Area());
      if r.IsEmpty() { return; }
      ghost var m0 := View();
      var ty, ty1, tx0, tx1 :=
          TileIndexFor(r.y), TileIndexFor(r.Bottom() - 1), TileIndexFor(r.x), TileIndexFor(r.Right() - 1);
      TilesOfRect(r);
      while ty <= ty1
        invariant Shaped(View())
        invariant forall x, y :: Stored(View(), x, y) == if r.Contains(x, y) && Before(TileOf(x, y), tx0, ty) then v
                  else Stored(m0, x, y)
      {
        var tx := tx0;
        while tx <= tx1
          invariant Shaped(View())
          invariant forall x, y :: Stored(View(), x, y) == if r.Contains(x, y) && Before(TileOf(x, y), tx, ty) then v
                    else Stored(m0, x, y)
        {
          FillTileIn(Coord(tx, ty), r, v);
          tx := tx + 1;
        }
        ty := ty + 1;
      }
    }

    method CopyTileIn(c: Coord, r: Rect, area: Rect, src: seq<u8>, stride: int, ghost image: (int, int) -> u8)
      requires Shaped(View()) && Holds(src, area, stride, r, image)
      modifies this`tiles, this`boundsValid
      ensures Shaped(View())
      ensures forall x, y :: Stored(View(), x, y) == if r.Contains(x, y) && TileOf(x, y) == c then image(x, y)
              else old(Stored(View(), x, y))
    {
      var tr := c.CanvasRect().Intersected(r);
      if !tr.IsEmpty() {
        CopyTile(c, tr, area, src, stride, image);
      }
      forall x, y
        ensures tr.Contains(x, y) <==> r.Contains(x, y) && TileOf(x, y) == c
      {
        TileOfUnique(c, x, y);
      }
    }

    /** Copies the dense buffer `src`, laid over `area`, into the part of `area` on the canvas. */
    method WriteRegion(area: Rect, src: seq<u8>, stride: int, ghost image: (int, int) -> u8)
      requires Shaped(View()) && Holds(src, area, stride, area.Intersected(canvas.Area()), image)
      modifies this`tiles, this`boundsValid
      ensures Shaped(View())
      ensures forall x, y :: Stored(View(), x, y) ==
                             if area.Contains(x, y) && canvas.Area().Contains(x, y) then image(x, y)
                                 else old(Stored(View(), x, y))
    {
      var r := area.Intersected(canvas.Area());
      if r.IsEmpty() { return; }
      ghost var m0 := View();
      var ty, ty1, tx0, tx1 :=
          TileIndexFor(r.y), TileIndexFor(r.Bottom() - 1), TileIndexFor(r.x), TileIndexFor(r.Right() - 1);
      TilesOfRect(r);
      while ty <= ty1
        invariant Shaped(View())
        invariant forall x, y :: Stored(View(), x, y) ==
                                 if r.Contains(x, y) && Before(TileOf(x, y), tx0, ty) then image(x, y)
                                     else Stored(m0, x, y)
      {
        var tx := tx0;
        while tx <= tx1
          invariant Shaped(View())
          invariant forall x, y :: Stored(View(), x, y) ==
                                   if r.Contains(x, y) && Before(TileOf(x, y), tx, ty) then image(x, y)
                                       else Stored(m0, x, y)
        {
          CopyTileIn(Coord(tx, ty), r, area, src, stride, image);
          tx := tx + 1;
        }
        ty := ty + 1;
      }
    }

    /** Every allocated tile, in no particular order (the tile map is a hash map). */
    method CollectTiles() returns (list: seq<Coord>)
      ensures forall c :: c in list <==> c in tiles
      ensures forall i, j :: 0 <= i < j < |list| ==> list[i] != list[j]
    {
      var rest := tiles.Keys;
      list := [];
      while rest != {}
        invariant forall c :: c in tiles <==> c in list || c in rest
        invariant forall i, j :: 0 <= i < j < |list| ==> list[i] != list[j]
        invariant forall i :: 0 <= i < |list| ==> list[i] !in rest
        decreases rest
      {
        var c :| c in rest;
        rest := rest - {c};
        list := list + [c];
      }
    }

    /** Does every byte of the pixel buffer `px` of tile `c` equal `outside` inside `tr`? */
    method IsUniform(c: Coord, tr: Rect, px: seq<u8>) returns (uniform: bool)
      requires |px| == TILE_PIXELS
      requires forall x, y :: tr.Contains(x, y) ==> TileOf(x, y) == c
      ensures uniform <==> forall x, y :: tr.Contains(x, y) ==> Peek(px, c, x, y) == outside
    {
      uniform := true;
      var y := tr.y;
      while uniform && y < tr.Bottom()
        invariant uniform <==> forall qx, qy :: tr.Contains(qx, qy) && qy < y ==> Peek(px, c, qx, qy) == outside
        decreases tr.Bottom() - y
      {
        var x := tr.x;
        while x < tr.Right()
          invariant uniform
          invariant forall qx, qy :: tr.Contains(qx, qy) && (qy < y || (qy == y && qx < x)) ==>
                    Peek(px, c, qx, qy) == outside
        {
          assert tr.Contains(x, y) && TileOf(x, y) == c;
          if px[PixelIndex(c, x, y)] != outside {
            uniform := false;
            break;
          }
          x := x + 1;
        }
        y := y + 1;
      }
    }

    /** Drops tile `c` unless it shows something; either way the dense function stays. */
    method NormalizeTile(c: Coord)
      requires Shaped(View()) && c in tiles
      modifies this`tiles
      ensures tiles == if Shows(old(View()), c) then old(tiles) else old(tiles) - {c}
    {
      var tr := c.CanvasRect().Intersected(canvas.Area());
      forall x, y
        ensures tr.Contains(x, y) <==> canvas.Area().Contains(x, y) && TileOf(x, y) == c
      {
        TileOfUnique(c, x, y);
      }
      if tr.IsEmpty() {
        tiles := tiles - {c};
        return;
      }
      var uniform := IsUniform(c, tr, tiles[c]);
      if uniform {
        tiles := tiles - {c};
      } else {
        assert exists x, y :: tr.Contains(x, y) && Stored(View(), x, y) != outside;
      }
    }

    /** Drops every tile that shows nothing but `outside` on the canvas. */
    method Normalize()
      requires Shaped(View()) && (outside == 0 || outside == 255)
      modifies this`tiles, this`boundsValid
      ensures Valid() && !boundsValid
      ensures forall x, y :: ValueAt(x, y) == old(ValueAt(x, y))
    {
      hide Shows;
      ghost var m0 := View();
      var list := CollectTiles();
      var i := 0;
      while i < |list|
        invariant 0 <= i <= |list| && Shaped(View())
        invariant forall c :: c in tiles ==> c in m0.tiles && tiles[c] == m0.tiles[c] && c in list
        invariant forall j :: 0 <= j < i ==> (list[j] in tiles <==> Shows(m0, list[j]))
        invariant forall c :: c in m0.tiles && c !in tiles ==> !Shows(m0, c)
      {
        var c := list[i];
        if c in tiles {
          ShowsAlike(m0, View(), c);
          NormalizeTile(c);
        }
        i := i + 1;
      }
      boundsValid := false;
      SameDense(m0, View());
      forall c | c in tiles
        ensures Shows(View(), c)
      {
        ShowsAlike(m0, View(), c);
      }
    }

    /** `setCanvasSize`: what is on both canvases keeps its value. */
    method SetCanvasSize(size: Size)
      requires Valid()
      modifies this
      ensures Valid() && canvas == size && outside == old(outside)
      ensures forall x, y :: size.Area().Contains(x, y) ==> ValueAt(x, y) == old(Stored(View(), x, y))
    {
      canvas := size;
      boundsValid := false;
      Normalize();
    }

    /** Flips one tile; the tile is already allocated. */
    method InvertTile(c: Coord)
      requires Shaped(View()) && c in tiles
      modifies this`tiles, this`boundsValid
      ensures tiles == old(tiles)[c := Inverted(old(tiles[c]))]
    {
      WritableTile(c);
      var px := tiles[c];
      var i := 0;
      while i < TILE_PIXELS
        invariant 0 <= i <= TILE_PIXELS == |px|
        invariant forall j :: 0 <= j < TILE_PIXELS ==>
                  px[j] == if j < i then 255 - old(tiles[c])[j] else old(tiles[c])[j]
      {
        px := px[i := 255 - px[i]];
        i := i + 1;
      }
      assert px == Inverted(old(tiles[c]));
      tiles := tiles[c := px];
    }

    /** Flips `outside` and every allocated tile. */
    method InvertTiles()
      requires Shaped(View())
      modifies this
      ensures canvas == old(canvas) && Opposite(old(View()), View())
    {
      hide Inverted;
      ghost var m0 := View();
      outside := 255 - outside;
      var list := CollectTiles();
      var i := 0;
      while i < |list|
        invariant 0 <= i <= |list| && outside == 255 - m0.outside && canvas == m0.canvas
        invariant tiles.Keys == m0.tiles.Keys && Shaped(View())
        invariant forall j :: 0 <= j < |list| ==> list[j] in m0.tiles && list[j] in tiles
        invariant forall j :: 0 <= j < i ==> tiles[list[j]] == Inverted(m0.tiles[list[j]])
        invariant forall j :: i <= j < |list| ==> tiles[list[j]] == m0.tiles[list[j]]
      {
        InvertTile(list[i]);
        i := i + 1;
      }
      forall c | c in tiles
        ensures tiles[c] == Inverted(m0.tiles[c])
      {
        assert c in list;
      }
    }

    /** Inversion touches only allocated tiles, yet inverts every canvas pixel. */
    method Invert()
      requires Valid()
      modifies this
      ensures Valid() && canvas == old(canvas) && outside == 255 - old(outside)
      ensures forall x, y :: ValueAt(x, y) == if canvas.Area().Contains(x, y) then 255 - old(ValueAt(x, y)) else 0
    {
      ghost var m0 := View();
      InvertTiles();
      OppositeDense(m0, View());
      Normalize();
    }

    /** The `kTilePixels` loop of `combine`: absent tiles read as the old `outside` values. */
    method CombineTile(a: seq<u8>, b: seq<u8>, op: Op) returns (buf: seq<u8>)
      requires |a| == |b| == TILE_PIXELS
      ensures |buf| == TILE_PIXELS && forall i :: 0 <= i < TILE_PIXELS ==> buf[i] == ApplyOp(a[i], b[i], op)
    {
      buf := [];
      while |buf| < TILE_PIXELS
        invariant |buf| <= TILE_PIXELS
        invariant forall i :: 0 <= i < |buf| ==> buf[i] == ApplyOp(a[i], b[i], op)
      {
        buf := buf + [ApplyOp(a[|buf|], b[|buf|], op)];
      }
    }

    /** Writes or drops tile `c` according to the combined bytes. */
    method CombineInto(c: Coord, a: seq<u8>, b: seq<u8>, op: Op)
      requires Shaped(View()) && |a| == |b| == TILE_PIXELS
      modifies this`tiles, this`boundsValid
      ensures Shaped(View()) && tiles.Keys <= old(tiles.Keys) + {c}
      ensures forall d :: d != c ==> (d in tiles <==> d in old(tiles)) && (d in tiles ==> tiles[d] == old(tiles)[d])
      ensures forall x, y :: TileOf(x, y) == c && canvas.Area().Contains(x, y) ==>
                               Stored(View(), x, y) == ApplyOp(Peek(a, c, x, y), Peek(b, c, x, y), op)
    {
      var buf := CombineTile(a, b, op);
      var tr := c.CanvasRect().Intersected(canvas.Area());
      forall x, y
        ensures tr.Contains(x, y) <==> canvas.Area().Contains(x, y) && TileOf(x, y) == c
      {
        TileOfUnique(c, x, y);
      }
      var uniform := IsUniform(c, tr, buf);
      if uniform || tr.IsEmpty() {
        tiles := tiles - {c};
        return;
      }
      WritableTile(c);
      tiles := tiles[c := buf];
    }

    /** Pixel buffer of tile `c`, or a flat one where the tile is absent. */
    function TileOr(c: Coord, flat: u8): (px: seq<u8>)
      requires Shaped(View())
      reads this
      ensures |px| == TILE_PIXELS
    {
      if c in tiles then tiles[c] else seq(TILE_PIXELS, _ => flat)
    }

    /** The tiles of both lists, each once. */
    static method Merge(list: seq<Coord>, more: seq<Coord>) returns (coords: seq<Coord>)
      requires forall i, j :: 0 <= i < j < |list| ==> list[i] != list[j]
      ensures forall c :: c in coords <==> c in list || c in more
      ensures forall i, j :: 0 <= i < j < |coords| ==> coords[i] != coords[j]
    {
      coords := list;
      for k := 0 to |more|
        invariant forall c :: c in coords <==> c in list || c in more[..k]
        invariant forall i, j :: 0 <= i < j < |coords| ==> coords[i] != coords[j]
      {
        if more[k] !in coords { coords := coords + [more[k]]; }
      }
    }

    /** Boolean combination; `other` may be this very mask. Masks without partial values are combined as
        sets of pixels. */
    method Combine(other: SelectionMask, op: Op) returns (ok: bool)
      requires Valid() && other.Valid()
      modifies this
      ensures Valid() && canvas == old(canvas)
      ensures ok <==> old(other.canvas == canvas)
      ensures ok ==> outside == ApplyOp(old(outside), old(other.outside), op)
      ensures !ok ==> View() == old(View())
      ensures ok ==> forall x, y :: ValueAt(x, y) ==
                                    if canvas.Area().Contains(x, y)
                                        then ApplyOp(old(ValueAt(x, y)), old(other.ValueAt(x, y)), op) else 0
      ensures ok ==> forall x, y :: Combines(op, old(ValueAt(x, y)), old(other.ValueAt(x, y)), ValueAt(x, y))
      ensures ok && Sharp(old(View())) && Sharp(old(other.View())) ==>
                Sharp(View()) && Chosen(View()) == OnSets(op, Chosen(old(View())), Chosen(old(other.View())))
    {
      hide ApplyOp, Combines, OnSets, Sharp, Chosen;
      FlatOp(outside, other.outside, op);
      if other.canvas != canvas { return false; }
      ok := true;
      ghost var m0, o0 := View(), other.View();
      var oldOut, otherOut := outside, other.outside;
      var list := CollectTiles();
      var otherList := other.CollectTiles();
      var coords := Merge(list, otherList);
      outside := ApplyOp(oldOut, otherOut, op);
      CombineTiles(other, op, coords, oldOut, otherOut, m0, o0);
      label looped:
      Normalize();
      forall x, y | canvas.Area().Contains(x, y)
        ensures Value(View(), x, y) == ApplyOp(Value(m0, x, y), Value(o0, x, y), op)
      {
        assert ValueAt(x, y) == old@looped(ValueAt(x, y)) == old@looped(Stored(View(), x, y));
      }
      CombinedView(m0, o0, View(), op);
    }

    /** The tile loop of `combine`, in whatever order the tiles were collected. */
    method CombineTiles(other: SelectionMask, op: Op, coords: seq<Coord>, oldOut: u8, otherOut: u8, ghost m0: Sparse,
            ghost o0: Sparse)
      requires Shaped(View()) && Shaped(other.View()) && Shaped(m0) && Shaped(o0)
      requires tiles == m0.tiles && other.tiles == o0.tiles && oldOut == m0.outside && otherOut == o0.outside
      requires outside == ApplyOp(oldOut, otherOut, op)
      requires forall i, j :: 0 <= i < j < |coords| ==> coords[i] != coords[j]
      requires forall c :: c in m0.tiles || c in o0.tiles ==> c in coords
      modifies this`tiles, this`boundsValid
      ensures Shaped(View())
      ensures forall x, y :: canvas.Area().Contains(x, y) ==>
                               Stored(View(), x, y) == ApplyOp(Stored(m0, x, y), Stored(o0, x, y), op)
    {
      hide CombinedTo;
      CombineStart(View(), m0, o0, coords, op);
      var i := 0;
      while i < |coords|
        invariant 0 <= i <= |coords| && Shaped(View()) && CombinedTo(View(), m0, o0, coords, i, op)
        invariant other != this ==> other.tiles == o0.tiles
        invariant other == this ==> o0.tiles == m0.tiles
      {
        var c := coords[i];
        StillThere(View(), m0, o0, coords, i, op);
        var a, b := TileOr(c, oldOut), other.TileOr(c, otherOut);
        forall x, y | TileOf(x, y) == c
          ensures Peek(a, c, x, y) == Stored(m0, x, y) && Peek(b, c, x, y) == Stored(o0, x, y)
        {
        }
        ghost var before := View();
        CombineInto(c, a, b, op);
        CombineNext(before, View(), m0, o0, coords, i, op);
        i := i + 1;
      }
      CombineEnd(View(), m0, o0, coords, op);
    }

    /** Exact box of the nonzero bytes `s` of a pixel buffer, by scanning the rectangle `tr`. */
    static method ScanPixels(p: seq<u8>, c: Coord, tr: Rect, ghost s: Points) returns (b: Rect)
      requires !tr.IsEmpty()
      requires forall x, y :: s.Has(x, y) <==> tr.Contains(x, y) && Peek(p, c, x, y) != 0
      ensures Tight(b, s)
    {
      hide Points.Has, Peek;
      var e := Extent(tr.Right(), tr.x - 1, tr.Bottom(), tr.y - 1);
      var y := tr.y;
      while y < tr.Bottom()
        invariant tr.y <= y <= tr.Bottom()
        invariant Attained(s, e, tr) && ScannedTo(s, e, tr.x, y)
      {
        var x := tr.x;
        while x < tr.Right()
          invariant tr.x <= x <= tr.Right()
          invariant Attained(s, e, tr) && ScannedTo(s, e, x, y)
        {
          if Peek(p, c, x, y) != 0 {
            assert s.Has(x, y);
            GrowAttained(s, e, tr, x, y);
            e := e.Grown(x, y);
          }
          x := x + 1;
        }
        y := y + 1;
      }
      ExtentBox(s, e, tr);
      b := e.Box();
    }

    /** What one tile contributes to the bounding box. */
    method TileBox(c: Coord) returns (b: Rect)
      requires Shaped(View())
      ensures Tight(b, SelectedIn(View(), c))
    {
      ghost var s := SelectedIn(View(), c);
      var tr := c.CanvasRect().Intersected(canvas.Area());
      forall x, y
        ensures tr.Contains(x, y) <==> canvas.Area().Contains(x, y) && TileOf(x, y) == c
      {
        TileOfUnique(c, x, y);
      }
      b := Rect(0, 0, 0, 0);
      if !tr.IsEmpty() {
        if c in tiles {
          b := ScanPixels(tiles[c], c, tr, s);
        } else if outside != 0 {
          assert s.Has(tr.x, tr.y) && s.Has(tr.Right() - 1, tr.Bottom() - 1);
          b := tr;
        }
      }
    }

    /** The tile loop of `bounds`. */
    method ComputeBounds() returns (acc: Rect)
      requires Shaped(View())
      ensures Tight(acc, Selected(View()))
    {
      hide Tight;
      acc := Rect(0, 0, 0, 0);
      if canvas.IsEmpty() {
        EmptyCanvas(View());
        return;
      }
      ghost var m := View();
      var tx1, ty1 := TileIndexFor(canvas.width - 1), TileIndexFor(canvas.height - 1);
      NothingBefore(m);
      var ty := 0;
      while ty <= ty1
        invariant 0 <= ty <= ty1 + 1
        invariant Tight(acc, SelectedBefore(m, 0, ty))
      {
        var tx := 0;
        while tx <= tx1
          invariant 0 <= tx <= tx1 + 1
          invariant Tight(acc, SelectedBefore(m, tx, ty))
        {
          var b := TileBox(Coord(tx, ty));
          AddTile(m, acc, b, tx, ty);
          acc := acc.United(b);
          tx := tx + 1;
        }
        NextRow(m, acc, tx, ty);
        ty := ty + 1;
      }
      AllRows(m, acc, ty);
    }

    /** Box of the selected pixels, cached until the next change. */
    method Bounds() returns (r: Rect)
      requires Valid()
      modifies this`boundsCache, this`boundsValid
      ensures Valid() && boundsValid && r == boundsCache
      ensures Tight(r, Selected(View()))
    {
      hide Tight, Minimal, Selected;
      if boundsValid { return boundsCache; }
      var acc := ComputeBounds();
      boundsCache := acc;
      boundsValid := true;
      return acc;
    }

    /** Samples the mask over the padded window: 0 on seeds, `FAR` elsewhere. */
    method SeedField(field: Rect, step: int) returns (dist: array<real>)
      requires 0 <= field.width <= 0x7fff_ffff && 0 <= field.height <= 0x7fff_ffff
      ensures fresh(dist) && IsSeedField(View(), step, field, dist[..])
    {
      hide Value, D.Column;
      var fw, fh := field.width, field.height;
      D.MulMono(0, fh, fw);
      dist := new real[fh * fw];
      ghost var m := View();
      var y := 0;
      while y < fh
        invariant 0 <= y <= fh && D.Field(dist[..], fw, fh) && View() == m
        invariant forall i, j :: D.Inside(fw, fh, i, j) && j < y ==>
                                   D.Column(dist[..], fw, fh, i)[j] == SeedHeight(m, step, field.x + i, field.y + j)
      {
        var x := 0;
        while x < fw
          invariant 0 <= x <= fw && D.Field(dist[..], fw, fh) && View() == m
          invariant forall i, j :: D.Inside(fw, fh, i, j) && (j < y || (j == y && i < x)) ==>
                                     D.Column(dist[..], fw, fh, i)[j] == SeedHeight(m, step, field.x + i, field.y + j)
        {
          var on := ValueAt(field.x + x, field.y + y) >= 128;
          var seedPx := if step > 0 then on else !on;
          ghost var before := dist[..];
          D.CellBounds(fw, fh, x, y);
          assert D.CellOk(fw, fh, x, y);
          dist[y * fw + x] := if seedPx then 0.0 else FAR;
          assert dist[..] == before[D.Cell(fw, x, y) := SeedHeight(m, step, field.x + x, field.y + y)];
          forall i | 0 <= i < fw { D.SetCell(before, fw, fh, x, y, SeedHeight(m, step, field.x + x, field.y + y), i); }
          x := x + 1;
        }
        y := y + 1;
      }
    }

    /** One row of the thresholded window. */
    static method ThresholdRow(dist: array<real>, field: Rect, work: Rect, step: int, y: int, ghost m: Sparse,
            ghost f: seq<real>)
      returns (row: seq<u8>)
      requires step != 0 && Abs(step) < 0x8000_0000 && 0 <= y < work.height
      requires field == work.Grown(Abs(step) + 1) && IsSeedField(m, step, field, f)
      requires D.Transformed(f, dist[..], field.width, field.height)
      ensures |row| == Max0(work.width)
      ensures forall i :: 0 <= i < work.width ==> row[i] == Expanded(m, step, work.x + i, work.y + y)
    {
      hide Value, D.IsLower2, Near, IsSeedField;
      var limit := (step * step) as real;
      var pad := Abs(step) + 1;
      row := [];
      var x := 0;
      while x < work.width
        invariant 0 <= x <= Max0(work.width) && |row| == x
        invariant forall i :: 0 <= i < x ==> row[i] == Expanded(m, step, work.x + i, work.y + y)
      {
        var cx, cy := x + pad, y + pad;
        D.CellBounds(field.width, field.height, cx, cy);
        var d2 := dist[cy * field.width + cx];
        assert D.Inside(field.width, field.height, cx, cy) && D.CellOk(field.width, field.height, cx, cy);
        assert d2 == D.Column(dist[..], field.width, field.height, cx)[cy];
        FieldDecides(m, step, work, field, f, work.x + x, work.y + y, d2);
        var sel := if step > 0 then d2 <= limit else d2 > limit;
        row := row + [if sel then 255 else 0];
        x := x + 1;
      }
    }

    /** Turns the squared distances into mask bytes over the window `work`. */
    static method Threshold(dist: array<real>, field: Rect, work: Rect, step: int, ghost m: Sparse, ghost f: seq<real>)
      returns (out: seq<u8>)
      requires step != 0 && Abs(step) < 0x8000_0000 && !work.IsEmpty()
      requires field == work.Grown(Abs(step) + 1) && IsSeedField(m, step, field, f)
      requires D.Transformed(f, dist[..], field.width, field.height)
      ensures Holds(out, work, work.width, work, (x, y) => Expanded(m, step, x, y))
    {
      hide Value, D.Transformed, Near, IsSeedField;
      ghost var image := (x, y) => Expanded(m, step, x, y);
      out := [];
      var y := 0;
      while y < work.height
        invariant 0 <= y <= work.height && RowMajor(out, work, y, image)
      {
        var row := ThresholdRow(dist, field, work, step, y, m, f);
        AppendRow(out, row, work, y, image);
        out := out + row;
        y := y + 1;
      }
      RowMajorHolds(out, work, image);
    }

    /** The work of `expand` once the window is known: measure, threshold, write back. */
    method ExpandWindow(work: Rect, step: int)
      requires WellFormed(View()) && step != 0 && FitsI32(canvas, step) && !work.IsEmpty()
      requires forall x, y :: work.Contains(x, y) ==> canvas.Area().Contains(x, y)
      modifies this
      ensures Valid() && canvas == old(canvas)
      ensures forall x, y :: canvas.Area().Contains(x, y) ==>
                               ValueAt(x, y) == if work.Contains(x, y) then Expanded(old(View()), step, x, y)
                                 else old(ValueAt(x, y))
    {
      hide Expanded, IsSeedField, Tight, Minimal;
      ghost var m := View();
      WithinCanvas(work, canvas);
      var field := work.Grown(Abs(step) + 1);
      var dist := SeedField(field, step);
      ghost var f := dist[..];
      SeedFieldShape(m, step, field, f);
      D.Distance2D(dist, field.width, field.height);
      var out := Threshold(dist, field, work, step, m, f);
      WriteRegion(work, out, work.width, (x, y) => Expanded(m, step, x, y));
      Normalize();
    }

    /** None of the early exits of `expand` is taken. */
    predicate NeedsWindow(step: int)
      reads this
    {
      && step != 0 && !canvas.IsEmpty() && !IsEmpty()
      && !(step > 0 && IsAll())
    }

    /** Grows (`step > 0`) or shrinks (`step < 0`) the selection by an exact Euclidean disk. The
        window computed and the window written are both finite parts of the canvas; the result holds
        for every canvas pixel. */
    method Expand(step: int)
      requires Valid() && (NeedsWindow(step) ==> FitsI32(canvas, step))
      modifies this
      ensures Valid() && canvas == old(canvas)
      ensures step == 0 ==> View() == old(View())
      ensures step != 0 ==> forall x, y :: canvas.Area().Contains(x, y) ==>
              ValueAt(x, y) == Expanded(old(View()), step, x, y)
    {
      hide Expanded, Tight, Minimal;
      ghost var m := View();
      if step == 0 || canvas.IsEmpty() { return; }
      if step > 0 && (IsAll() || IsEmpty()) {
        FlatExpands(m, step);
        return;
      }
      if step < 0 && IsEmpty() {
        FlatExpands(m, step);
        return;
      }
      var seed := Bounds();
      var grow := Abs(step);
      var work := (if step > 0 then seed.Grown(grow) else seed).Intersected(canvas.Area());
      forall x, y | canvas.Area().Contains(x, y) && !work.Contains(x, y)
        ensures ValueAt(x, y) == 0 == Expanded(m, step, x, y)
      {
        OutsideWork(m, step, seed, work, x, y);
      }
      if work.IsEmpty() { return; }
      ExpandWindow(work, step);
    }
  }
}
