/** Hashes of pixels (crypto/src/canvas_hash.cpp): what bytes they are made of. */
module CanvasHash {
  import opened Bytes
  import opened Geometry
  import opened Blend
  import opened Compositor
  import opened Image
  import S = Sha256
  import T = Tiles

  /** "mari-canvas-hash/v1" and a line break. */
  const CANVAS_DOMAIN: seq<u8> :=
    [109, 97, 114, 105, 45, 99, 97, 110, 118, 97, 115, 45, 104, 97, 115, 104, 47, 118, 49, 10]

  /** "mari-layer-hash/v1" and a line break. */
  const LAYER_DOMAIN: seq<u8> := [109, 97, 114, 105, 45, 108, 97, 121, 101, 114, 45, 104, 97, 115, 104, 47, 118, 49, 10]

  function PixelBytes(p: Pixel): seq<u8> { [p.r, p.g, p.b, p.a] }

  /** The pixels' bytes, colours without alpha cleared. */
  function Ink(ps: seq<Pixel>): (b: seq<u8>)
    ensures |b| == 4 * |ps|
  {
    if |ps| == 0 then [] else Ink(ps[..|ps| - 1]) + PixelBytes(Seen(ps[|ps| - 1]))
  }

  /** The bytes tell exactly what can be seen. */
  lemma {:induction false} InkTells(a: seq<Pixel>, b: seq<Pixel>)
    requires |a| == |b|
    ensures Ink(a) == Ink(b) <==> forall i :: 0 <= i < |a| ==> Seen(a[i]) == Seen(b[i])
  {
    hide Seen, Ink;
    var n := |a| - 1;
    if n >= 0 {
      InkTells(a[..n], b[..n]);
      LastInk(a, b);
      forall i | 0 <= i < n ensures a[..n][i] == a[i] && b[..n][i] == b[i] {}
    } else {
      assert a == b;
    }
  }

  lemma LastInk(a: seq<Pixel>, b: seq<Pixel>)
    requires |a| == |b| > 0
    ensures Ink(a) == Ink(b) <==> Ink(a[..|a| - 1]) == Ink(b[..|b| - 1]) && Seen(a[|a| - 1]) == Seen(b[|b| - 1])
  {
    hide Seen;
    var n := |a| - 1;
    var pa, pb := Ink(a[..n]), Ink(b[..n]);
    var la, lb := PixelBytes(Seen(a[n])), PixelBytes(Seen(b[n]));
    if Ink(a) == Ink(b) {
      assert pa == Ink(a)[..4 * n] && pb == Ink(b)[..4 * n];
      assert la == Ink(a)[4 * n..] && lb == Ink(b)[4 * n..];
      assert la[0] == lb[0] && la[1] == lb[1] && la[2] == lb[2] && la[3] == lb[3];
    }
  }

  /** A 32-bit signed integer's two's complement, little-endian. */
  function Int32(v: int): (b: seq<u8>)
    ensures |b| == 4
  {
    PutU32(v % 0x1_0000_0000)
  }

  predicate IsInt32(v: int) { -0x8000_0000 <= v < 0x8000_0000 }

  lemma Int32Tells(v: int, w: int)
    requires IsInt32(v) && IsInt32(w) && Int32(v) == Int32(w)
    ensures v == w
  {
    hide PutU32, GetU32;
    assert GetU32(Int32(v), 0) == v % 0x1_0000_0000 && GetU32(Int32(w), 0) == w % 0x1_0000_0000;
  }

  // ---- layers ---------------------------------------------------------------------------------------------------

  const RECORD_SIZE := 8 + 4 * TILE_PIXELS

  /** Coordinates and pixels of one tile. */
  function TileRecord(c: Coord, t: Tile): (b: seq<u8>)
    ensures |b| == RECORD_SIZE
  {
    Int32(c.tx) + Int32(c.ty) + Ink(t)
  }

  /** A tile counts when something in it can be seen. */
  predicate Contributes(m: Tiles, c: Coord) { c in m && !IsBlank(m[c]) }

  /** Records of the tiles `cs`, in that order. */
  function Records(m: Tiles, cs: seq<Coord>): (b: seq<u8>)
    requires forall c :: c in cs ==> c in m
    ensures |b| == RECORD_SIZE * |cs|
  {
    if |cs| == 0 then [] else Records(m, cs[..|cs| - 1]) + TileRecord(cs[|cs| - 1], m[cs[|cs| - 1]])
  }

  /** Row by row, each once. */
  ghost predicate Ordered(cs: seq<Coord>) { forall i, j :: 0 <= i < j < |cs| ==> Before(cs[i], cs[j]) }

  /** Exactly the tiles in which something can be seen, in order. */
  ghost predicate Listed(m: Tiles, cs: seq<Coord>) { Ordered(cs) && forall c :: c in cs <==> Contributes(m, c) }

  /** What is fed for a layer whose contributing tiles are `cs`. */
  function LayerStream(m: Tiles, cs: seq<Coord>): seq<u8>
    requires forall c :: c in cs ==> c in m
  {
    LAYER_DOMAIN + PutU32(TILE_SIZE) + Records(m, cs) + PutLE(|cs|, 8)
  }

  lemma RecordsAppend(m: Tiles, cs: seq<Coord>, c: Coord)
    requires c in m && forall d :: d in cs ==> d in m
    ensures Records(m, cs + [c]) == Records(m, cs) + TileRecord(c, m[c])
  {
    assert (cs + [c])[..|cs|] == cs;
  }

  method AllocatedTiles(m: Tiles) returns (r: seq<Coord>)
    ensures forall c :: c in r <==> c in m
  {
    r := [];
    var todo := m.Keys;
    while todo != {}
      invariant todo <= m.Keys && forall c :: c in r <==> c in m && c !in todo
      decreases |todo|
    {
      var c :| c in todo;
      r := r + [c];
      todo := todo - {c};
    }
  }

  /** `normalizeTransparent`, as bytes. */
  method InkOf(ps: seq<Pixel>) returns (b: seq<u8>)
    ensures b == Ink(ps)
  {
    b := [];
    var i := 0;
    while i < |ps|
      invariant 0 <= i <= |ps| && b == Ink(ps[..i])
    {
      assert ps[..i + 1][..i] == ps[..i];
      b := b + PixelBytes(Seen(ps[i]));
      i := i + 1;
    }
    assert ps[..i] == ps;
  }

  method FeedTile(h: S.Sha256, c: Coord, t: Tile)
    requires h.Valid() && !h.finished
    modifies h`bufLen, h`total, h`fed, h.h, h.buf
    ensures h.Valid() && h.fed == old(h.fed) + TileRecord(c, t)
  {
    hide Ink, Int32, S.Sha256.Valid;
    h.Update(Int32(c.tx));
    h.Update(Int32(c.ty));
    var ink := InkOf(t);
    h.Update(ink);
    assert ((old(h.fed) + Int32(c.tx)) + Int32(c.ty)) + Ink(t) == old(h.fed) + TileRecord(c, t);
  }

  /** A hash object that has been fed `domain` and one number. */
  method Started(domain: seq<u8>, n: u32) returns (h: S.Sha256)
    ensures fresh(h) && fresh(h.h) && fresh(h.buf) && h.Valid() && !h.finished && h.fed == domain + PutU32(n)
  {
    hide S.Sha256.Valid;
    h := new S.Sha256();
    h.Update(domain);
    assert [] + domain == domain;
    h.Update(PutU32(n));
  }

  datatype Hashed = Hashed(digest: seq<u8>) | Refused(error: Error)

  /** `tileMapHashHex`, up to the digest's spelling: the digest of the layer stream. Only RGBA8 is hashed. */
  method TileMapHash(format: T.PixelFormat, m: Tiles) returns (r: Hashed)
    ensures format != T.RGBA8 ==> r == Refused(Unsupported)
    ensures format == T.RGBA8 ==> r.Hashed? && exists cs :: Listed(m, cs)
    ensures format == T.RGBA8 ==> forall cs :: Listed(m, cs) ==> r.digest == S.WrappedDigest(LayerStream(m, cs))
  {
    hide TileRecord, Contributes, Listed, Before, Chosen, Records, LayerStream, PutLE, PutU32, S.WrappedDigest,
         S.Digest, S.Sha256.Valid;
    if format != T.RGBA8 { return Refused(Unsupported); }
    var h := Started(LAYER_DOMAIN, TILE_SIZE);
    ghost var head := LAYER_DOMAIN + PutU32(TILE_SIZE);
    var tiles := AllocatedTiles(m);
    tiles := DedupDirtyTiles(tiles);
    var contributing := 0;
    ghost var cs: seq<Coord> := [];
    NoneChosen(m, tiles);
    var i := 0;
    while i < |tiles|
      invariant 0 <= i <= |tiles| && h.Valid() && !h.finished && fresh(h) && fresh(h.h) && fresh(h.buf)
      invariant contributing == |cs| && Chosen(m, tiles, i, cs) && forall c :: c in cs ==> c in m
      invariant h.fed == head + Records(m, cs)
    {
      var c := tiles[i];
      ChosenNext(m, tiles, i, cs);
      if Contributes(m, c) {
        FeedTile(h, c, m[c]);
        RecordsAppend(m, cs, c);
        assert head + (Records(m, cs) + TileRecord(c, m[c])) == (head + Records(m, cs)) + TileRecord(c, m[c]);
        contributing := contributing + 1;
        cs := cs + [c];
      }
      i := i + 1;
    }
    ChosenAll(m, tiles, cs);
    h.Update(PutLE(contributing, 8));
    StreamIs(m, cs);
    var digest := h.Finish();
    r := Hashed(digest);
    forall ds | Listed(m, ds) ensures ds == cs { ListedOnce(m, cs, ds); }
  }

  lemma ListedOnce(m: Tiles, cs: seq<Coord>, ds: seq<Coord>)
    requires Listed(m, cs) && Listed(m, ds)
    ensures cs == ds
  {
    hide Contributes, Ordered;
    OrderUnique(cs, ds);
  }

  lemma StreamIs(m: Tiles, cs: seq<Coord>)
    requires forall c :: c in cs ==> c in m
    ensures LayerStream(m, cs) == LAYER_DOMAIN + PutU32(TILE_SIZE) + Records(m, cs) + PutLE(|cs|, 8)
  {
  }

  /** Those of the first `i` tiles that contribute. */
  ghost predicate Chosen(m: Tiles, tiles: seq<Coord>, i: nat, cs: seq<Coord>)
    requires i <= |tiles|
  {
    Ordered(cs) && forall c :: c in cs <==> c in tiles[..i] && Contributes(m, c)
  }

  lemma NoneChosen(m: Tiles, tiles: seq<Coord>)
    ensures Chosen(m, tiles, 0, [])
  {
  }

  lemma ChosenNext(m: Tiles, tiles: seq<Coord>, i: nat, cs: seq<Coord>)
    requires i < |tiles| && Ordered(tiles) && Chosen(m, tiles, i, cs)
    ensures Chosen(m, tiles, i + 1, if Contributes(m, tiles[i]) then cs + [tiles[i]] else cs)
  {
    hide Contributes, Before;
    assert tiles[..i + 1] == tiles[..i] + [tiles[i]];
    forall k | 0 <= k < |cs| ensures Before(cs[k], tiles[i]) {
      assert cs[k] in tiles[..i];
    }
  }

  lemma ChosenAll(m: Tiles, tiles: seq<Coord>, cs: seq<Coord>)
    requires Chosen(m, tiles, |tiles|, cs) && forall c :: c in tiles <==> c in m
    ensures Listed(m, cs)
  {
    hide IsBlank, Before;
    assert tiles[..|tiles|] == tiles;
  }

  // ---- the layer stream and what can be seen ---------------------------------------------------------------

  ghost predicate LookAlike(m: Tiles, n: Tiles) { forall x, y :: Visible(m, x, y) == Visible(n, x, y) }

  /** Pixel `i` of tile `c` has canvas coordinates. */
  lemma PixelAt(c: Coord, i: nat)
    requires i < TILE_PIXELS
    ensures TileOf(PixelX(c, i), PixelY(c, i)) == c && PixelIndex(c, PixelX(c, i), PixelY(c, i)) == i
  {
    TileOfUnique(c, PixelX(c, i), PixelY(c, i));
  }

  function PixelX(c: Coord, i: nat): int { TileOrigin(c.tx) + i % TILE_SIZE }

  function PixelY(c: Coord, i: nat): int { TileOrigin(c.ty) + i / TILE_SIZE }

  lemma SeenAt(m: Tiles, c: Coord, i: nat)
    requires i < TILE_PIXELS
    ensures Visible(m, PixelX(c, i), PixelY(c, i)) == if c in m then Seen(m[c][i]) else CLEAR
  {
    PixelAt(c, i);
  }

  /** A tile that does not contribute shows nothing. */
  lemma NothingThere(m: Tiles, x: int, y: int)
    requires !Contributes(m, TileOf(x, y))
    ensures Visible(m, x, y) == CLEAR
  {
    IndexInTile(x, y);
  }

  lemma SameTilesContribute(m: Tiles, n: Tiles, c: Coord)
    requires LookAlike(m, n) && Contributes(m, c)
    ensures Contributes(n, c)
  {
    hide Visible, PixelX, PixelY;
    var i :| 0 <= i < TILE_PIXELS && m[c][i].a != 0;
    SeenAt(m, c, i);
    SeenAt(n, c, i);
  }

  lemma {:induction false} OrderUnique(cs: seq<Coord>, ds: seq<Coord>)
    requires Ordered(cs) && Ordered(ds) && forall c :: c in cs <==> c in ds
    ensures cs == ds
  {
    assert |ds| > 0 ==> ds[0] in ds;
    if |cs| == 0 {
    } else {
      var a, b := |cs| - 1, |ds| - 1;
      assert cs[a] in cs && ds[b] in ds;
      assert cs[a] == ds[b];
      forall c ensures c in cs[..a] <==> c in ds[..b] {
        LastOnce(cs, c);
        LastOnce(ds, c);
      }
      OrderUnique(cs[..a], ds[..b]);
    }
  }

  lemma LastOnce(cs: seq<Coord>, c: Coord)
    requires Ordered(cs) && |cs| > 0
    ensures c in cs[..|cs| - 1] <==> c in cs && c != cs[|cs| - 1]
  {
  }

  lemma {:induction false} RecordsAlike(m: Tiles, n: Tiles, cs: seq<Coord>)
    requires forall c :: c in cs ==> c in m && c in n && Ink(m[c]) == Ink(n[c])
    ensures Records(m, cs) == Records(n, cs)
  {
    hide Ink, Int32;
    if |cs| > 0 { RecordsAlike(m, n, cs[..|cs| - 1]); }
  }

  lemma {:induction false} RecordsTell(m: Tiles, cs: seq<Coord>, n: Tiles, ds: seq<Coord>)
    requires |cs| == |ds| && (forall c :: c in cs ==> c in m && CoordFits(c))
             && (forall d :: d in ds ==> d in n && CoordFits(d))
    requires Records(m, cs) == Records(n, ds)
    ensures cs == ds && forall c :: c in cs ==> Ink(m[c]) == Ink(n[c])
  {
    hide TileRecord, Ink, CoordFits;
    if |cs| > 0 {
      var k := |cs| - 1;
      var a, b := Records(m, cs[..k]), Records(n, ds[..k]);
      var c, d := cs[k], ds[k];
      assert a == Records(m, cs)[..RECORD_SIZE * k] == Records(n, ds)[..RECORD_SIZE * k] == b;
      assert TileRecord(c, m[c]) == Records(m, cs)[RECORD_SIZE * k..] == Records(n, ds)[RECORD_SIZE * k..]
             == TileRecord(d, n[d]);
      RecordTells(c, m[c], d, n[d]);
      RecordsTell(m, cs[..k], n, ds[..k]);
      assert cs == cs[..k] + [c] && ds == ds[..k] + [d];
    }
  }

  /** Tile coordinates are 32-bit. */
  predicate CoordFits(c: Coord) { IsInt32(c.tx) && IsInt32(c.ty) }

  lemma RecordTells(c: Coord, t: Tile, d: Coord, u: Tile)
    requires CoordFits(c) && CoordFits(d) && TileRecord(c, t) == TileRecord(d, u)
    ensures c == d && Ink(t) == Ink(u)
  {
    hide Ink, Int32;
    var r, s := TileRecord(c, t), TileRecord(d, u);
    assert Int32(c.tx) == r[..4] == s[..4] == Int32(d.tx);
    assert Int32(c.ty) == r[4..8] == s[4..8] == Int32(d.ty);
    assert Ink(t) == r[8..] == s[8..] == Ink(u);
    Int32Tells(c.tx, d.tx);
    Int32Tells(c.ty, d.ty);
  }

  /** The bytes fed for a layer are determined by what can be seen of it, and determine it: which tiles
      are allocated, in what order they are found and what colours hide under no alpha leaves no trace,
      and two layers that look different anywhere are fed differently. */
  lemma StreamTellsVisible(m: Tiles, cs: seq<Coord>, n: Tiles, ds: seq<Coord>)
    requires Listed(m, cs) && Listed(n, ds)
    requires (forall c :: c in m ==> CoordFits(c)) && (forall c :: c in n ==> CoordFits(c))
    ensures LayerStream(m, cs) == LayerStream(n, ds) <==> LookAlike(m, n)
  {
    hide LookAlike, Ordered, CoordFits, IsBlank;
    if LookAlike(m, n) { AlikeStreams(m, cs, n, ds); }
    if LayerStream(m, cs) == LayerStream(n, ds) {
      SameRecords(m, cs, n, ds);
      RecordsTell(m, cs, n, ds);
      SameInkLooksAlike(m, n, cs);
    }
  }

  /** So layers that look the same have one hash. */
  method LookAlikeHashAlike(m: Tiles, n: Tiles) returns (a: Hashed, b: Hashed)
    requires (forall c :: c in m ==> CoordFits(c)) && (forall c :: c in n ==> CoordFits(c)) && LookAlike(m, n)
    ensures a.Hashed? && a == b
  {
    hide LookAlike, Ordered, CoordFits, Contributes, LayerStream, S.WrappedDigest;
    a := TileMapHash(T.RGBA8, m);
    b := TileMapHash(T.RGBA8, n);
    ghost var cs :| Listed(m, cs);
    ghost var ds :| Listed(n, ds);
    StreamTellsVisible(m, cs, n, ds);
  }

  lemma AlikeStreams(m: Tiles, cs: seq<Coord>, n: Tiles, ds: seq<Coord>)
    requires Listed(m, cs) && Listed(n, ds) && LookAlike(m, n)
    ensures LayerStream(m, cs) == LayerStream(n, ds)
  {
    hide Visible, Ordered, LookAlike, Contributes, Ink;
    forall c ensures c in cs <==> c in ds {
      if c in cs { SameTilesContribute(m, n, c); }
      if c in ds { AlikeBack(m, n); SameTilesContribute(n, m, c); }
    }
    OrderUnique(cs, ds);
    forall c | c in cs ensures c in m && c in n && Ink(m[c]) == Ink(n[c]) {
      AlikeInk(m, n, c);
    }
    RecordsAlike(m, n, cs);
  }

  lemma AlikeBack(m: Tiles, n: Tiles)
    requires LookAlike(m, n)
    ensures LookAlike(n, m)
  {
    hide Visible;
  }

  lemma AlikeInk(m: Tiles, n: Tiles, c: Coord)
    requires Contributes(m, c) && Contributes(n, c) && LookAlike(m, n)
    ensures c in m && c in n && Ink(m[c]) == Ink(n[c])
  {
    hide Visible, Ink, IsBlank, PixelX, PixelY;
    forall i | 0 <= i < TILE_PIXELS ensures Seen(m[c][i]) == Seen(n[c][i]) {
      SeenAt(m, c, i);
      SeenAt(n, c, i);
    }
    InkTells(m[c], n[c]);
  }

  /** Records have one size, so equal streams hold equally many. */
  lemma SameRecords(m: Tiles, cs: seq<Coord>, n: Tiles, ds: seq<Coord>)
    requires (forall c :: c in cs ==> c in m) && (forall d :: d in ds ==> d in n)
             && LayerStream(m, cs) == LayerStream(n, ds)
    ensures |cs| == |ds| && Records(m, cs) == Records(n, ds)
  {
    hide Records, PutLE, PutU32;
    var head := LAYER_DOMAIN + PutU32(TILE_SIZE);
    var s, t := LayerStream(m, cs), LayerStream(n, ds);
    assert |s| == |head| + RECORD_SIZE * |cs| + 8 && |t| == |head| + RECORD_SIZE * |ds| + 8;
    assert Records(m, cs) == s[|head|..|s| - 8] && Records(n, ds) == t[|head|..|t| - 8];
  }

  lemma SameInkLooksAlike(m: Tiles, n: Tiles, cs: seq<Coord>)
    requires Listed(m, cs) && Listed(n, cs) && forall c :: c in cs ==> c in m && c in n && Ink(m[c]) == Ink(n[c])
    ensures LookAlike(m, n)
  {
    hide Visible, Ordered, Ink, Contributes;
    forall x, y ensures Visible(m, x, y) == Visible(n, x, y) {
      var c := TileOf(x, y);
      if c in cs {
        InkTells(m[c], n[c]);
        SeenThere(m, n, x, y);
      } else {
        NothingThere(m, x, y);
        NothingThere(n, x, y);
      }
    }
  }

  lemma SeenThere(m: Tiles, n: Tiles, x: int, y: int)
    requires TileOf(x, y) in m && TileOf(x, y) in n
    requires forall i :: 0 <= i < TILE_PIXELS ==> Seen(m[TileOf(x, y)][i]) == Seen(n[TileOf(x, y)][i])
    ensures Visible(m, x, y) == Visible(n, x, y)
  {
    IndexInTile(x, y);
  }

  // ---- the canvas ----------------------------------------------------------------------------------------------

  /** Rows from top to bottom. */
  function RowsInk(rows: seq<seq<Pixel>>): seq<u8> {
    if |rows| == 0 then [] else RowsInk(rows[..|rows| - 1]) + Ink(rows[|rows| - 1])
  }

  /** What is fed for a canvas. */
  function CanvasStream(width: u32, height: u32, rows: seq<seq<Pixel>>): seq<u8> {
    CANVAS_DOMAIN + PutU32(width) + PutU32(height) + RowsInk(rows)
  }

  predicate Grid(rows: seq<seq<Pixel>>, width: nat, height: nat) {
    |rows| == height && forall y :: 0 <= y < height ==> |rows[y]| == width
  }

  ghost predicate SameSeen(a: seq<seq<Pixel>>, b: seq<seq<Pixel>>, width: nat, height: nat)
    requires Grid(a, width, height) && Grid(b, width, height)
  {
    forall x, y :: 0 <= x < width && 0 <= y < height ==> Seen(a[y][x]) == Seen(b[y][x])
  }

  lemma {:induction false} RowsInkSize(rows: seq<seq<Pixel>>, width: nat, height: nat)
    requires Grid(rows, width, height)
    ensures |RowsInk(rows)| == (4 * width) * height
  {
    if height > 0 { RowsInkSize(rows[..height - 1], width, height - 1); }
  }

  lemma NothingToFeed(rows: seq<seq<Pixel>>, width: u32, height: u32)
    requires Grid(rows, width, height) && (width == 0 || height == 0)
    ensures CanvasStream(width, height, rows) == CANVAS_DOMAIN + PutU32(width) + PutU32(height)
  {
    hide PutU32;
    RowsInkSize(rows, width, height);
    assert RowsInk(rows) == [];
  }

  lemma {:induction false} RowsInkTells(a: seq<seq<Pixel>>, b: seq<seq<Pixel>>, width: nat, height: nat)
    requires Grid(a, width, height) && Grid(b, width, height)
    ensures RowsInk(a) == RowsInk(b) <==> SameSeen(a, b, width, height)
  {
    hide Ink, Seen;
    if height > 0 {
      var n := height - 1;
      RowsInkTells(a[..n], b[..n], width, n);
      InkTells(a[n], b[n]);
      LastRow(a, b, width, height);
      RowsInkSize(a[..n], width, n);
      RowsInkSize(b[..n], width, n);
      var k := |RowsInk(a[..n])|;
      if RowsInk(a) == RowsInk(b) {
        assert RowsInk(a[..n]) == RowsInk(a)[..k] == RowsInk(b)[..k] == RowsInk(b[..n]);
        assert Ink(a[n]) == RowsInk(a)[k..] == RowsInk(b)[k..] == Ink(b[n]);
      }
    }
  }

  lemma LastRow(a: seq<seq<Pixel>>, b: seq<seq<Pixel>>, width: nat, height: nat)
    requires Grid(a, width, height) && Grid(b, width, height) && height > 0
    ensures SameSeen(a, b, width, height) <==>
            SameSeen(a[..height - 1], b[..height - 1], width, height - 1)
              && var l, k := a[height - 1], b[height - 1]; forall x :: 0 <= x < width ==> Seen(l[x]) == Seen(k[x])
  {
    hide Seen;
    var n := height - 1;
    forall y | 0 <= y < n ensures a[..n][y] == a[y] && b[..n][y] == b[y] {}
  }

  /** The bytes fed for a canvas are determined by its size and what can be seen, and determine both. */
  lemma CanvasStreamTells(w: u32, h: u32, a: seq<seq<Pixel>>, w': u32, h': u32, b: seq<seq<Pixel>>)
    requires Grid(a, w, h) && Grid(b, w', h')
    ensures CanvasStream(w, h, a) == CanvasStream(w', h', b) <==> w == w' && h == h' && SameSeen(a, b, w, h)
  {
    hide RowsInk, PutU32, GetU32, SameSeen, Grid;
    var s, t := CanvasStream(w, h, a), CanvasStream(w', h', b);
    var n := |CANVAS_DOMAIN|;
    assert PutU32(w) == s[n..n + 4] && PutU32(h) == s[n + 4..n + 8] && RowsInk(a) == s[n + 8..];
    assert PutU32(w') == t[n..n + 4] && PutU32(h') == t[n + 4..n + 8] && RowsInk(b) == t[n + 8..];
    if s == t {
      assert w == GetU32(PutU32(w), 0) == GetU32(PutU32(w'), 0) == w';
      assert h == GetU32(PutU32(h), 0) == GetU32(PutU32(h'), 0) == h';
    }
    if w == w' && h == h' { RowsInkTells(a, b, w, h); }
  }

  /** The first `height` rows and `width` columns. */
  ghost function RowsOf(px: array2<Pixel>, width: nat, height: nat): (rows: seq<seq<Pixel>>)
    requires height <= px.Length0 && width <= px.Length1
    reads px
    ensures Grid(rows, width, height) && forall x, y :: 0 <= x < width && 0 <= y < height ==> rows[y][x] == px[y, x]
  {
    seq(height, y requires 0 <= y < height reads px => seq(width, x requires 0 <= x < width reads px => px[y, x]))
  }

  /** A canvas of pixels. Rows may be longer than the canvas is wide. */
  method CanvasHashOfPixels(width: int, height: int, px: array2?<Pixel>) returns (r: Hashed)
    requires IsInt32(width) && IsInt32(height) && (px != null ==> height <= px.Length0)
    ensures r.Refused? <==>
            width < 0 || height < 0 || (if px == null then width > 0 && height > 0 else px.Length1 < width)
    ensures r.Refused? ==> r.error == InvalidArgument
    ensures r.Hashed? && px != null ==>
            r.digest == S.WrappedDigest(CanvasStream(width, height, RowsOf(px, width, height)))
    ensures r.Hashed? && px == null ==> forall rows :: Grid(rows, width, height) ==>
            r.digest == S.WrappedDigest(CanvasStream(width, height, rows))
  {
    hide PutU32, RowsOf, RowsInk, S.WrappedDigest, S.Digest, S.Sha256.Valid;
    if width < 0 || height < 0 { return Refused(InvalidArgument); }
    if px != null && px.Length1 < width { return Refused(InvalidArgument); }
    if px == null && width > 0 && height > 0 { return Refused(InvalidArgument); }
    var h := StartedCanvas(width, height);
    if px == null {
      forall rows | Grid(rows, width, height)
        ensures CanvasStream(width, height, rows) == h.fed
      {
        NothingToFeed(rows, width, height);
      }
    } else {
      FeedRows(h, px, width, height);
    }
    var digest := h.Finish();
    r := Hashed(digest);
  }

  /** One normalised row after the other. */
  method FeedRows(h: S.Sha256, px: array2<Pixel>, width: nat, height: nat)
    requires h.Valid() && !h.finished && height <= px.Length0 && width <= px.Length1
    modifies h`bufLen, h`total, h`fed, h.h, h.buf
    ensures h.Valid() && h.fed == old(h.fed) + RowsInk(RowsOf(px, width, height))
  {
    hide RowsOf, S.Sha256.Valid, Ink;
    ghost var rows := RowsOf(px, width, height);
    ghost var head := h.fed;
    var y := 0;
    while y < height
      invariant 0 <= y <= height && h.Valid()
      invariant h.fed == head + RowsInk(rows[..y])
    {
      var row := RowPart(px, y, width);
      var ink := InkOf(row);
      h.Update(ink);
      assert row == rows[y] && rows[..y + 1][..y] == rows[..y];
      assert (head + RowsInk(rows[..y])) + ink == head + RowsInk(rows[..y + 1]);
      y := y + 1;
    }
    assert rows[..y] == rows;
  }

  method RowPart(px: array2<Pixel>, y: nat, width: nat) returns (row: seq<Pixel>)
    requires y < px.Length0 && width <= px.Length1
    ensures |row| == width && forall x :: 0 <= x < width ==> row[x] == px[y, x]
  {
    row := [];
    while |row| < width
      invariant |row| <= width && forall x :: 0 <= x < |row| ==> row[x] == px[y, x]
    {
      row := row + [px[y, |row|]];
    }
  }

  method StartedCanvas(width: u32, height: u32) returns (h: S.Sha256)
    ensures fresh(h) && fresh(h.h) && fresh(h.buf) && h.Valid() && !h.finished
            && h.fed == CANVAS_DOMAIN + PutU32(width) + PutU32(height)
  {
    hide S.Sha256.Valid, PutU32;
    h := Started(CANVAS_DOMAIN, width);
    h.Update(PutU32(height));
  }

  /** In place, on the first rows of the buffer. */
  method NormalizeTransparent(px: array2<Pixel>, rows: nat)
    requires rows <= px.Length0
    modifies px
    ensures forall i, j :: 0 <= i < px.Length0 && 0 <= j < px.Length1 ==>
            px[i, j] == if i < rows then Seen(old(px[i, j])) else old(px[i, j])
  {
    var i := 0;
    while i < rows
      invariant 0 <= i <= rows
      invariant forall u, v :: 0 <= u < px.Length0 && 0 <= v < px.Length1 ==>
                px[u, v] == if u < i then Seen(old(px[u, v])) else old(px[u, v])
    {
      var j := 0;
      while j < px.Length1
        invariant 0 <= j <= px.Length1
        invariant forall u, v :: 0 <= u < px.Length0 && 0 <= v < px.Length1 ==>
                  px[u, v] == if u < i || (u == i && v < j) then Seen(old(px[u, v])) else old(px[u, v])
      {
        if px[i, j].a == 0 { px[i, j] := px[i, j].(r := 0, g := 0, b := 0); }
        j := j + 1;
      }
      i := i + 1;
    }
  }

  /** The picture the layers make. */
  ghost function Flattened(mix: Mix, roots: seq<Layer>, width: nat, height: nat): (rows: seq<seq<Pixel>>)
    ensures Grid(rows, width, height) && forall x, y :: 0 <= x < width && 0 <= y < height ==>
            rows[y][x] == Shade(mix, roots, x, y, CLEAR)
  {
    seq(height, y => seq(width, x => Shade(mix, roots, x, y, CLEAR)))
  }

  /** Four mebibytes at most, but at least one row. */
  const BAND_BUDGET := 0x40_0000

  method BandRows(rowBytes: nat) returns (rows: nat)
    ensures 1 <= rows <= TILE_SIZE && (rows > 1 ==> rows * rowBytes <= BAND_BUDGET)
  {
    rows := TILE_SIZE;
    if rowBytes > 0 {
      var fit := Quotient(BAND_BUDGET, rowBytes);
      if fit < rows {
        rows := if fit == 0 then 1 else fit;
      } else {
        FewerFit(rows, fit, rowBytes);
      }
    }
  }

  function Quotient(n: nat, d: nat): (q: nat)
    requires d > 0
    ensures q * d <= n < (q + 1) * d
  {
    n / d
  }

  lemma FewerFit(a: nat, b: nat, d: nat)
    requires a <= b
    ensures a * d <= b * d
  {
  }

  /** One band: rows `y` to `y + |rows|` of the picture, normalised in place and laid out as bytes. */
  method BandInk(mix: Mix, roots: seq<Layer>, y: nat, rows: nat, width: nat, height: nat, band: array2<Pixel>)
          returns (r: Outcome, ink: seq<u8>)
    requires rows <= band.Length0 && band.Length1 == width > 0 && 0 < rows && y + rows <= height
    modifies band
    ensures r == if Supported(roots) then Done else Failed(Unsupported)
    ensures r.Done? ==> ink == RowsInk(Flattened(mix, roots, width, height)[y..y + rows])
  {
    hide Shade, Supported, Ink;
    ink := [];
    var area := Rect(0, y, width, rows);
    r := CompositeArea(mix, roots, area, band);
    if r.Failed? { return; }
    ghost var flat := Flattened(mix, roots, width, height);
    forall i, x | 0 <= i < rows && 0 <= x < width ensures band[i, x] == flat[y + i][x] {
      assert InWindow(area, 0, 0, i, x);
    }
    NormalizeTransparent(band, rows);
    var i := 0;
    while i < rows
      invariant 0 <= i <= rows && ink == RowsInk(flat[y..y + i])
      invariant forall u, v :: 0 <= u < rows && 0 <= v < width ==> band[u, v] == Seen(flat[y + u][v])
    {
      var row := RowPart(band, i, width);
      var raw := RawBytes(row);
      InkTells(row, flat[y + i]);
      assert flat[y..y + (i + 1)][..i] == flat[y..y + i];
      ink := ink + raw;
      i := i + 1;
    }
  }

  /** The bytes of pixels that are normalised already. */
  method RawBytes(ps: seq<Pixel>) returns (b: seq<u8>)
    requires forall i :: 0 <= i < |ps| ==> ps[i] == Seen(ps[i])
    ensures b == Ink(ps)
  {
    b := [];
    var i := 0;
    while i < |ps|
      invariant 0 <= i <= |ps| && b == Ink(ps[..i])
    {
      assert ps[..i + 1][..i] == ps[..i];
      b := b + PixelBytes(ps[i]);
      i := i + 1;
    }
    assert ps[..i] == ps;
  }

  lemma {:induction false} RowsInkConcat(a: seq<seq<Pixel>>, b: seq<seq<Pixel>>)
    ensures RowsInk(a + b) == RowsInk(a) + RowsInk(b)
  {
    hide Ink;
    if |b| == 0 {
      assert a + b == a;
    } else {
      var n := |b| - 1;
      assert (a + b)[..|a| + n] == a + b[..n];
      RowsInkConcat(a, b[..n]);
      assert RowsInk(a + b) == RowsInk(a + b[..n]) + Ink(b[n]);
    }
  }

  /** `canvasHashHex`, up to the digest's spelling: band by band, the digest of the whole picture. */
  method CanvasHash(mix: Mix, roots: seq<Layer>, size: Size) returns (r: Hashed)
    requires IsInt32(size.width) && IsInt32(size.height)
    ensures r == if size.width < 0 || size.height < 0 then Refused(InvalidArgument)
                 else if !size.IsEmpty() && !Supported(roots) then Refused(Unsupported)
                 else Hashed(S.WrappedDigest(CanvasStream(size.width, size.height,
                   Flattened(mix, roots, size.width, size.height))))
  {
    hide PutU32, Supported, Flattened, RowsInk, S.WrappedDigest, S.Digest, S.Sha256.Valid;
    var width, height := size.width, size.height;
    if width < 0 || height < 0 { return Refused(InvalidArgument); }
    var h := StartedCanvas(width, height);
    ghost var head := CANVAS_DOMAIN + PutU32(width) + PutU32(height);
    ghost var flat := Flattened(mix, roots, width, height);
    if size.IsEmpty() {
      NothingToFeed(flat, width, height);
      var none := h.Finish();
      return Hashed(none);
    }
    var bandRows := BandRows(4 * width);
    var band := new Pixel[bandRows, width]((i, j) => CLEAR);
    var y := 0;
    NoRows(flat);
    while y < height
      invariant 0 <= y <= height && h.Valid() && !h.finished && fresh(h) && fresh(h.h) && fresh(h.buf)
      invariant h.fed == head + RowsInk(flat[..y]) && (y > 0 ==> Supported(roots))
    {
      var rows := if bandRows < height - y then bandRows else height - y;
      var done, ink := BandInk(mix, roots, y, rows, width, height, band);
      if done.Failed? { return Refused(done.error); }
      h.Update(ink);
      NextBand(flat, y, rows, head);
      y := y + rows;
    }
    assert flat[..y] == flat;
    var digest := h.Finish();
    r := Hashed(digest);
  }

  lemma NextBand(flat: seq<seq<Pixel>>, y: nat, rows: nat, head: seq<u8>)
    requires y + rows <= |flat|
    ensures head + RowsInk(flat[..y]) + RowsInk(flat[y..y + rows]) == head + RowsInk(flat[..y + rows])
  {
    hide RowsInk;
    assert flat[..y] + flat[y..y + rows] == flat[..y + rows];
    RowsInkConcat(flat[..y], flat[y..y + rows]);
  }

  lemma NoRows(rows: seq<seq<Pixel>>)
    ensures RowsInk(rows[..0]) == []
  {
  }

  /** Hashing in bands and hashing the whole canvas composited at once give the same digest. */
  method BandedIsWhole(mix: Mix, roots: seq<Layer>, size: Size) returns (banded: Hashed, whole: Hashed)
    requires IsInt32(size.width) && IsInt32(size.height) && size.width >= 0 && size.height >= 0 && Supported(roots)
    ensures banded.Hashed? && banded == whole
  {
    hide Supported, Shade, S.WrappedDigest, S.Digest, CanvasStream;
    banded := CanvasHash(mix, roots, size);
    var px := new Pixel[size.height, size.width]((i, j) => CLEAR);
    var done := CompositeArea(mix, roots, size.Area(), px);
    whole := CanvasHashOfPixels(size.width, size.height, px);
    SamePicture(mix, roots, size.width, size.height, px);
  }

  lemma SamePicture(mix: Mix, roots: seq<Layer>, width: nat, height: nat, px: array2<Pixel>)
    requires px.Length0 == height && px.Length1 == width && Shows(mix, roots, Rect(0, 0, width, height), px)
    ensures RowsOf(px, width, height) == Flattened(mix, roots, width, height)
  {
    hide Shade;
    var a, b := RowsOf(px, width, height), Flattened(mix, roots, width, height);
    forall y | 0 <= y < height ensures a[y] == b[y] {
      forall x | 0 <= x < width ensures a[y][x] == b[y][x] {
        assert InWindow(Rect(0, 0, width, height), 0, 0, y, x);
      }
    }
  }
}
