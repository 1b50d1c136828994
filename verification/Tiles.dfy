/** Tiles and tile maps (core/src/tile.cpp). Pixel buffers are shared by reference count and split on
    the first write; the specification knows nothing of that and speaks of each tile's own bytes. */
module Tiles {
  import opened Bytes
  import opened Geometry

  datatype PixelFormat = Unknown | Gray8 | Gray16 | RGBA8 | RGBA16 | RGBA32F

  function BytesPerPixel(f: PixelFormat): nat {
    match f
    case Unknown => 0
    case Gray8 => 1
    case Gray16 => 2
    case RGBA8 => 4
    case RGBA16 => 8
    case RGBA32F => 16
  }

  function TileBytes(f: PixelFormat): nat { TILE_PIXELS * BytesPerPixel(f) }

  // ---- blank tiles -----------------------------------------------------------------------------------------

  /** Pixel `i` has no alpha. A float alpha is zero with either sign. */
  predicate NoAlpha(f: PixelFormat, b: seq<u8>, i: nat)
    requires |b| == TileBytes(f) && i < TILE_PIXELS
  {
    match f
    case RGBA8 => b[4 * i + 3] == 0
    case RGBA16 => b[8 * i + 6] == 0 && b[8 * i + 7] == 0
    case RGBA32F => b[16 * i + 12] == 0 && b[16 * i + 13] == 0 && b[16 * i + 14] == 0
         && (b[16 * i + 15] == 0 || b[16 * i + 15] == 0x80)
    case Gray8 => b[i] == 0
    case Gray16 => b[2 * i] == 0 && b[2 * i + 1] == 0
    case Unknown => true
  }

  /** No pixel has alpha; without an alpha channel, every byte is zero. */
  predicate Blank(f: PixelFormat, b: seq<u8>)
    requires |b| == TileBytes(f)
  {
    forall i :: 0 <= i < TILE_PIXELS ==> NoAlpha(f, b, i)
  }

  predicate HasAlpha(f: PixelFormat) { f == RGBA8 || f == RGBA16 || f == RGBA32F }

  /** Bytes of one channel: pixels of a format with alpha have four channels, the others one. */
  function ChannelBytes(f: PixelFormat): nat {
    if f == Gray8 || f == RGBA8 then 1 else if f == RGBA32F then 4 else 2
  }

  /** Alpha is the last channel: it is zero when all its bytes are, apart from the sign of a float. */
  lemma AlphaIsLast(f: PixelFormat, b: seq<u8>, i: nat)
    requires f != Unknown && |b| == TileBytes(f) && i < TILE_PIXELS
    ensures BytesPerPixel(f) == (if HasAlpha(f) then 4 else 1) * ChannelBytes(f)
    ensures var end, n := (i + 1) * BytesPerPixel(f), ChannelBytes(f);
            && 0 <= end - n && end <= |b|
            && (NoAlpha(f, b, i) <==> forall k :: end - n <= k < end ==>
                  b[k] == 0 || (f == RGBA32F && k == end - 1 && b[k] == 0x80))
  {
  }

  /** `computeBlank`: formats without alpha are scanned byte by byte. */
  method ComputeBlank(f: PixelFormat, b: seq<u8>) returns (blank: bool)
    requires |b| == TileBytes(f)
    ensures blank <==> Blank(f, b)
  {
    if HasAlpha(f) {
      var i := 0;
      while i < TILE_PIXELS
        invariant 0 <= i <= TILE_PIXELS && forall k :: 0 <= k < i ==> NoAlpha(f, b, k)
      {
        if !NoAlpha(f, b, i) { return false; }
        i := i + 1;
      }
      return true;
    }
    var k := 0;
    while k < |b|
      invariant 0 <= k <= |b| && forall m :: 0 <= m < k ==> b[m] == 0
    {
      if b[k] != 0 {
        ByteOfPixel(f, b, k);
        return false;
      }
      k := k + 1;
    }
    return true;
  }

  lemma ByteOfPixel(f: PixelFormat, b: seq<u8>, k: nat)
    requires !HasAlpha(f) && |b| == TileBytes(f) && k < |b| && b[k] != 0
    ensures !Blank(f, b)
  {
    if f == Gray8 {
      assert !NoAlpha(f, b, k);
    } else {
      assert k == 2 * (k / 2) || k == 2 * (k / 2) + 1;
      assert !NoAlpha(f, b, k / 2);
    }
  }

  // ---- shared buffers ---------------------------------------------------------------------------------------

  /** The shared bytes of tiles, and how many tiles hold them. */
  class Buffer {
    var bytes: seq<u8>
    var refs: nat

    constructor (bytes: seq<u8>)
      ensures this.bytes == bytes && refs == 1
    {
      this.bytes, refs := bytes, 1;
    }
  }

  class BufferTile {
    const format: PixelFormat
    var data: Buffer
    var blank: bool
    var blankKnown: bool
    /** The map this tile object is in, if any, and where. */
    ghost var owner: SparseTileMap?
    ghost var place: Coord

    constructor (f: PixelFormat, ghost m: SparseTileMap?, ghost c: Coord)
      ensures format == f && fresh(data) && data.refs == 1 && data.bytes == Zeros(TileBytes(f)) && blank && blankKnown
      ensures owner == m && place == c
    {
      format := f;
      data := new Buffer(Zeros(TileBytes(f)));
      blank, blankKnown := true, true;
      owner, place := m, c;
    }

    /** `clone`: another holder of the same buffer. */
    constructor Share(t: BufferTile, ghost m: SparseTileMap?, ghost c: Coord)
      modifies t.data`refs
      ensures owner == m && place == c
      ensures format == t.format && data == t.data == old(t.data) && blank == t.blank && blankKnown == t.blankKnown
      ensures data.refs == old(t.data.refs) + 1
    {
      format, data, blank, blankKnown := t.format, t.data, t.blank, t.blankKnown;
      owner, place := m, c;
      new;
      data.refs := data.refs + 1;
    }

    /** If somebody else holds the buffer too, this tile gets its own copy. */
    method EnsureUnique()
      requires data.refs > 0
      modifies this`data, data`refs
      ensures data.refs == 1 && data.bytes == old(data.bytes)
      ensures old(data.refs) == 1 ==> data == old(data)
      ensures old(data.refs) > 1 ==> fresh(data) && old(data).refs == old(data.refs) - 1
    {
      if data.refs > 1 {
        data.refs := data.refs - 1;
        data := new Buffer(data.bytes);
      }
    }
  }

  // ---- everything alive ---------------------------------------------------------------------------------------

  /** The buffer has the tile's size, and a remembered answer of `isBlank` is right. */
  predicate Sound(f: PixelFormat, b: seq<u8>, known: bool, blank: bool) {
    |b| == TileBytes(f) && (known ==> blank == Blank(f, b))
  }

  /** All tiles that exist, in maps or held elsewhere (by undo, for instance). */
  class World {
    ghost var tiles: set<BufferTile>
    ghost var buffers: set<Buffer>

    constructor ()
      ensures tiles == {} && Valid()
    {
      tiles, buffers := {}, {};
    }

    ghost function Sharers(b: Buffer): set<BufferTile>
      reads this, tiles
    {
      set t | t in tiles && t.data == b
    }

    ghost predicate TileOk(t: BufferTile)
      reads this, tiles, t, buffers
    {
      t.data in buffers && t.data.refs == |Sharers(t.data)| && Sound(t.format, t.data.bytes, t.blankKnown, t.blank)
    }

    /** Reference counts are exact, and every remembered answer of `isBlank` is right. */
    ghost predicate Valid()
      reads this, tiles, buffers
    {
      forall t :: t in tiles ==> TileOk(t)
    }

    lemma Alone(t: BufferTile)
      requires Valid() && t in tiles && t.data.refs == 1
      ensures Sharers(t.data) == {t}
    {
      assert TileOk(t) && t in Sharers(t.data);
      OnlyOne(Sharers(t.data), t);
    }

    lemma Sized(t: BufferTile)
      requires Valid() && t in tiles
      ensures TileOk(t) && |t.data.bytes| == TileBytes(t.format) && t.data in buffers
    {
    }

    lemma Held(t: BufferTile)
      requires Valid() && t in tiles
      ensures t.data.refs > 0
    {
      assert TileOk(t) && t in Sharers(t.data);
    }
  }

  lemma OnlyOne<T>(s: set<T>, x: T)
    requires x in s && |s| == 1
    ensures s == {x}
  {
    assert |s - {x}| == 0;
  }

  lemma ZerosBlank(f: PixelFormat)
    ensures Sound(f, Zeros(TileBytes(f)), true, true)
  {
  }

  /** A newcomer counts where its buffer is held, and nowhere else. */
  twostate lemma Joined(w: World, new t: BufferTile)
    requires old(w.Valid()) && t !in old(w.tiles) && w.tiles == old(w.tiles) + {t} && old(w.buffers) <= w.buffers
    requires forall u :: u in old(w.tiles) ==> unchanged(u) && u.data.bytes == old(u.data.bytes)
    requires forall u :: u in old(w.tiles) ==> u.data.refs == old(u.data.refs) + if u.data == t.data then 1 else 0
    ensures forall u :: u in old(w.tiles) ==> w.TileOk(u)
  {
    hide Sound;
    forall u | u in old(w.tiles) ensures w.TileOk(u) {
      assert old(w.TileOk(u));
      if u.data == t.data {
        assert w.Sharers(u.data) == old(w.Sharers(u.data)) + {t};
      } else {
        assert w.Sharers(u.data) == old(w.Sharers(u.data));
      }
    }
  }

  lemma OnlyHolder(w: World, t: BufferTile)
    requires t in w.tiles && t.data in w.buffers && t.data.refs == 1
             && Sound(t.format, t.data.bytes, t.blankKnown, t.blank)
    requires forall u :: u in w.tiles && u != t ==> u.data != t.data
    ensures w.TileOk(t)
  {
    hide Sound;
    assert w.Sharers(t.data) == {t};
  }

  /** A tile that nobody painted on yet. */
  method NewTile(f: PixelFormat, ghost m: SparseTileMap?, ghost c: Coord, ghost w: World) returns (t: BufferTile)
    requires w.Valid()
    modifies w
    ensures t.owner == m && t.place == c
    ensures w.Valid() && fresh(t) && fresh(t.data) && w.tiles == old(w.tiles) + {t} && t !in old(w.tiles)
    ensures t.format == f && t.data.bytes == Zeros(TileBytes(f)) && w.buffers == old(w.buffers) + {t.data}
  {
    hide Sound, Zeros;
    t := new BufferTile(f, m, c);
    ZerosBlank(f);
    w.tiles := w.tiles + {t};
    w.buffers := w.buffers + {t.data};
    OnlyHolder(w, t);
    Joined(w, t);
  }

  /** A second handle on the same pixels. No tile's bytes change. */
  method Clone(t: BufferTile, ghost m: SparseTileMap?, ghost p: Coord, ghost w: World) returns (c: BufferTile)
    requires w.Valid() && t in w.tiles
    modifies w, t.data`refs
    ensures c.owner == m && c.place == p
    ensures w.Valid() && fresh(c) && w.tiles == old(w.tiles) + {c} && c !in old(w.tiles)
    ensures c.format == t.format && c.data.bytes == old(t.data.bytes) && c.data == t.data && w.buffers == old(w.buffers)
  {
    hide Sound;
    c := new BufferTile.Share(t, m, p);
    w.tiles := w.tiles + {c};
    Joined(w, c);
    SameSound(w, t, c);
  }

  lemma SameSound(w: World, t: BufferTile, c: BufferTile)
    requires w.TileOk(t) && c.data == t.data && c.format == t.format && c.blank == t.blank
             && c.blankKnown == t.blankKnown
    ensures w.TileOk(c)
  {
    hide Sound;
  }

  function Overwritten(b: seq<u8>, at: nat, part: seq<u8>): seq<u8>
    requires at + |part| <= |b|
  {
    b[..at] + part + b[at + |part|..]
  }

  /** Writing through `mutablePixels`: the buffer is split off first if it is shared, so no other tile
      sees the write; the remembered answer of `isBlank` is dropped. */
  method Write(t: BufferTile, at: nat, part: seq<u8>, ghost w: World)
    requires w.Valid() && t in w.tiles && at + |part| <= |t.data.bytes|
    modifies t`data, t`blankKnown, t.data, w`buffers
    ensures w.buffers == old(w.buffers) + {t.data}
    ensures w.Valid() && t.data.bytes == Overwritten(old(t.data.bytes), at, part)
    ensures forall u :: u in w.tiles && u != t ==> u.data == old(u.data) && u.data.bytes == old(u.data.bytes)
    ensures t.data == old(t.data) || fresh(t.data)
  {
    hide Blank;
    ghost var was := t.data;
    ghost var sharers := w.Sharers(was);
    w.Held(t);
    if t.data.refs == 1 {
      w.Alone(t);
      forall u | u in w.tiles && u.data == was ensures u == t { assert u in sharers; }
    }
    t.EnsureUnique();
    assert forall u :: u in w.tiles && u != t ==>
           u.data == old(u.data) && u.data.bytes == old(u.data.bytes) && u.data != t.data;
    t.blankKnown := false;
    t.data.bytes := Overwritten(t.data.bytes, at, part);
    w.buffers := w.buffers + {t.data};
    forall u | u in w.tiles ensures w.TileOk(u) {
      assert old(w.TileOk(u));
      if u == t {
        assert w.Sharers(t.data) == {t};
      } else if u.data == was {
        assert t in sharers && w.Sharers(was) == sharers - {t};
      } else {
        assert w.Sharers(u.data) == old(w.Sharers(u.data));
      }
    }
  }

  /** `isBlank`, remembered. */
  method IsBlank(t: BufferTile, ghost w: World) returns (b: bool)
    requires w.Valid() && t in w.tiles
    modifies t`blank, t`blankKnown
    ensures w.Valid() && |t.data.bytes| == TileBytes(t.format) && b == Blank(t.format, t.data.bytes)
  {
    hide Blank;
    assert w.TileOk(t);
    if !t.blankKnown {
      t.blank := ComputeBlank(t.format, t.data.bytes);
      t.blankKnown := true;
    }
    b := t.blank;
    forall u | u in w.tiles ensures w.TileOk(u) {
      assert old(w.TileOk(u)) && w.Sharers(u.data) == old(w.Sharers(u.data));
    }
  }

  /** The last owner of a handle lets go of it. */
  method Release(t: BufferTile, ghost w: World)
    requires w.Valid() && t in w.tiles
    modifies w, t.data`refs
    ensures w.Valid() && w.tiles == old(w.tiles) - {t} && w.buffers == old(w.buffers)
  {
    hide Blank;
    w.Held(t);
    t.data.refs := t.data.refs - 1;
    w.tiles := w.tiles - {t};
    forall u | u in w.tiles ensures w.TileOk(u) {
      assert old(w.TileOk(u)) && old(w.TileOk(t));
      if u.data == t.data {
        assert w.Sharers(u.data) == old(w.Sharers(t.data)) - {t} && t in old(w.Sharers(t.data));
      } else {
        assert w.Sharers(u.data) == old(w.Sharers(u.data));
      }
    }
  }

  // ---- tile maps ------------------------------------------------------------------------------------------------

  datatype Result<T> = Ok(value: T) | Err

  ghost predicate Home(m: SparseTileMap, c: Coord, w: World)
    requires c in m.tiles
    reads w, m, w.tiles
  {
    var t := m.tiles[c];
    t in w.tiles && t.format == m.format && t.owner == m && t.place == c
  }

  /** Each tile object belongs to one map at one place; only buffers are shared. */
  ghost predicate Owned(maps: set<SparseTileMap>, w: World)
    reads w, maps, w.tiles
  {
    forall m, c :: m in maps && c in m.tiles ==> Home(m, c, w)
  }

  class SparseTileMap {
    const format: PixelFormat
    var tiles: map<Coord, BufferTile>

    constructor (f: PixelFormat)
      ensures format == f && tiles == map[]
    {
      format, tiles := f, map[];
    }

    /** The pixels as a plain value: what a deep copy would hold. */
    ghost function Contents(): map<Coord, seq<u8>>
      reads *
    {
      map c | c in tiles :: tiles[c].data.bytes
    }

    /** `writable`: a missing tile is made, all zero. */
    method Writable(c: Coord, ghost maps: set<SparseTileMap>, ghost w: World) returns (r: Result<BufferTile>)
      requires w.Valid() && this in maps && Owned(maps, w)
      modifies this, w
      ensures w.Valid() && Owned(maps, w)
      ensures r.Ok? <==> format != Unknown
      ensures old(w.buffers) <= w.buffers && (r.Ok? && c in old(tiles) ==> w.buffers == old(w.buffers))
      ensures r.Ok? ==> c in tiles && r.value == tiles[c] && w.tiles == old(w.tiles) + {r.value}
      ensures r.Ok? ==>
              Contents() == if c in old(tiles) then old(Contents()) else old(Contents())[c := Zeros(TileBytes(format))]
      ensures r.Ok? && c !in old(tiles) ==> fresh(r.value) && fresh(r.value.data)
      ensures r.Ok? && c in old(tiles) ==> r.value in old(w.tiles)
      ensures r.Ok? ==> tiles == if c in old(tiles) then old(tiles) else old(tiles)[c := r.value]
      ensures r.Err? ==> tiles == old(tiles) && w.tiles == old(w.tiles) && Contents() == old(Contents())
      ensures forall m :: m in maps && m != this ==> m.Contents() == old(m.Contents())
    {
      hide World.TileOk, World.Valid, Zeros, World.Sharers;
      if format == Unknown { return Err; }
      if c !in tiles {
        var t := NewTile(format, this, c, w);
        tiles := tiles[c := t];
      }
      assert c in old(tiles) ==> old(Home(this, c, w));
      r := Ok(tiles[c]);
    }

    /** Writing into a tile of the map. */
    method PaintTile(c: Coord, t: BufferTile, at: nat, part: seq<u8>, ghost maps: set<SparseTileMap>, ghost w: World)
      requires w.Valid() && this in maps && Owned(maps, w) && c in tiles && t == tiles[c]
               && at + |part| <= TileBytes(format) && |t.data.bytes| == TileBytes(format)
      modifies t`data, t`blankKnown, t.data, w`buffers
      ensures w.buffers == old(w.buffers) + {t.data}
      ensures w.Valid() && Owned(maps, w)
      ensures Contents() == old(Contents())[c := Overwritten(old(Contents())[c], at, part)]
      ensures forall m :: m in maps && m != this ==> m.Contents() == old(m.Contents())
      ensures forall u :: u in w.tiles && u != t ==> u.data.bytes == old(u.data.bytes)
      ensures t.data == old(t.data) || fresh(t.data)
    {
      hide World.TileOk, World.Valid, World.Sharers, Overwritten;
      assert Home(this, c, w);
      forall m, d | m in maps && d in m.tiles
        ensures m.tiles[d] in w.tiles && (m.tiles[d] == t ==> m == this && d == c)
      {
        assert Home(m, d, w);
      }
      Write(t, at, part, w);
      forall m, d | m in maps && d in m.tiles ensures Home(m, d, w) {
        assert old(Home(m, d, w));
      }
    }

    /** Writing into a tile, made if need be. Only this map changes, and only there, whoever shares the buffer. */
    method Paint(c: Coord, at: nat, part: seq<u8>, ghost maps: set<SparseTileMap>, ghost w: World)
            returns (r: Result<()>)
      requires w.Valid() && this in maps && Owned(maps, w) && at + |part| <= TileBytes(format)
      modifies this, w, w.tiles, w.buffers
      ensures w.Valid() && Owned(maps, w)
      ensures r.Ok? <==> format != Unknown
      ensures r.Ok? ==>
              Contents() == old(Contents())[c :=
                Overwritten(if c in old(tiles) then old(Contents())[c] else Zeros(TileBytes(format)), at, part)]
      ensures r.Err? ==> Contents() == old(Contents())
      ensures forall m :: m in maps && m != this ==> m.Contents() == old(m.Contents())
      ensures forall t :: t in old(w.tiles) && !(c in old(tiles) && t == old(tiles[c])) ==>
              t in w.tiles && t.data.bytes == old(t.data.bytes)
    {
      hide World.TileOk, World.Valid, World.Sharers, Overwritten, Zeros, Owned, Contents;
      var t := Writable(c, maps, w);
      if t.Err? { return Err; }
      SizedIn(this, c, maps, w);
      assert c in old(tiles) ==> t.value.data in old(w.buffers);
      PaintTile(c, t.value, at, part, maps, w);
      r := Ok(());
    }

    /** `collectTiles`: the allocated tiles that meet an area, each once, by whichever of the two ways
        is shorter. */
    method CollectTiles(area: Rect, out: seq<Coord>) returns (r: seq<Coord>)
      ensures out <= r
      ensures forall c :: c in r[|out|..] <==>
              c in tiles && !area.IsEmpty() && !area.Intersected(c.CanvasRect()).IsEmpty()
      ensures forall i, j :: |out| <= i < j < |r| ==> r[i] != r[j]
    {
      hide Rect.Intersected;
      r := out;
      if area.IsEmpty() || tiles == map[] { return; }
      var tx0, ty0 := TileIndexFor(area.x), TileIndexFor(area.y);
      var tx1, ty1 := TileIndexFor(area.Right() - 1), TileIndexFor(area.Bottom() - 1);
      forall c: Coord ensures InRange(c, tx0, ty0, tx1, ty1) <==> !area.Intersected(c.CanvasRect()).IsEmpty() {
        MeetsInRange(area, c);
      }
      var found;
      if (tx1 - tx0 + 1) * (ty1 - ty0 + 1) <= |tiles| {
        found := ScanRange(tx0, ty0, tx1, ty1);
      } else {
        found := ScanMap(area);
      }
      r := out + found;
      assert r[|out|..] == found;
    }

    /** Walks the coordinates of the area and looks each up. */
    method ScanRange(tx0: int, ty0: int, tx1: int, ty1: int) returns (r: seq<Coord>)
      ensures forall c :: c in r <==> c in tiles && InRange(c, tx0, ty0, tx1, ty1)
      ensures forall i, j :: 0 <= i < j < |r| ==> r[i] != r[j]
    {
      r := [];
      var ty := ty0;
      while ty <= ty1
        invariant ty0 <= ty1 + 1 ==> ty0 <= ty <= ty1 + 1
        invariant ty >= ty0 && forall c :: c in r <==> c in tiles && InRange(c, tx0, ty0, tx1, ty1) && c.ty < ty
        invariant forall i, j :: 0 <= i < j < |r| ==> r[i] != r[j]
      {
        var tx := tx0;
        while tx <= tx1
          invariant tx >= tx0
          invariant forall c :: c in r <==>
                    c in tiles && InRange(c, tx0, ty0, tx1, ty1) && (c.ty < ty || (c.ty == ty && c.tx < tx))
          invariant forall i, j :: 0 <= i < j < |r| ==> r[i] != r[j]
        {
          if Coord(tx, ty) in tiles { r := r + [Coord(tx, ty)]; }
          tx := tx + 1;
        }
        ty := ty + 1;
      }
    }

    /** Walks the allocated tiles and keeps those that meet the area. */
    method ScanMap(area: Rect) returns (r: seq<Coord>)
      ensures forall c :: c in r <==> c in tiles && !area.Intersected(c.CanvasRect()).IsEmpty()
      ensures forall i, j :: 0 <= i < j < |r| ==> r[i] != r[j]
    {
      hide Rect.Intersected;
      r := [];
      var todo := tiles.Keys;
      while todo != {}
        invariant todo <= tiles.Keys
        invariant forall c :: c in r <==> c in tiles && c !in todo && !area.Intersected(c.CanvasRect()).IsEmpty()
        invariant forall i, j :: 0 <= i < j < |r| ==> r[i] != r[j]
        decreases |todo|
      {
        var c :| c in todo;
        if !area.Intersected(c.CanvasRect()).IsEmpty() { r := r + [c]; }
        todo := todo - {c};
      }
    }

    /** `erase`: a missing tile is nothing to erase. */
    method Erase(c: Coord, ghost maps: set<SparseTileMap>, ghost w: World)
      requires w.Valid() && this in maps && Owned(maps, w)
      modifies this, w, w.buffers
      ensures w.Valid() && Owned(maps, w)
      ensures Contents() == old(Contents()) - {c} && tiles == old(tiles) - {c}
      ensures w.tiles == if c in old(tiles) then old(w.tiles) - {old(tiles[c])} else old(w.tiles)
      ensures w.buffers == old(w.buffers)
      ensures forall m :: m in maps && m != this ==> m.tiles == old(m.tiles) && m.Contents() == old(m.Contents())
      ensures forall t :: t in w.tiles ==> t.data == old(t.data) && t.data.bytes == old(t.data.bytes)
    {
      hide World.TileOk, World.Valid, World.Sharers;
      if c in tiles {
        var t := tiles[c];
        assert Home(this, c, w);
        w.Sized(t);
        tiles := tiles - {c};
        Release(t, w);
        forall m, d | m in maps && d in m.tiles ensures Home(m, d, w) {
          assert old(Home(m, d, w));
        }
      }
    }

    /** `clear`. */
    method Clear(ghost maps: set<SparseTileMap>, ghost w: World)
      requires w.Valid() && this in maps && Owned(maps, w)
      modifies this, w, w.buffers
      ensures w.Valid() && Owned(maps, w) && tiles == map[] && Contents() == map[]
      ensures forall m :: m in maps && m != this ==> m.tiles == old(m.tiles) && m.Contents() == old(m.Contents())
      ensures w.tiles <= old(w.tiles) && forall t :: t in w.tiles ==>
              t.data == old(t.data) && t.data.bytes == old(t.data.bytes)
    {
      hide World.TileOk, World.Valid, World.Sharers, Owned;
      while tiles != map[]
        invariant w.Valid() && Owned(maps, w) && w.tiles <= old(w.tiles) && w.buffers == old(w.buffers)
        invariant forall t :: t in w.tiles ==> t.data == old(t.data) && t.data.bytes == old(t.data.bytes)
        invariant forall m :: m in maps && m != this ==> m.tiles == old(m.tiles) && m.Contents() == old(m.Contents())
        decreases |tiles|
      {
        var c :| c in tiles;
        Erase(c, maps, w);
      }
    }

    /** `snapshot`: tile handles are cloned, not one byte is copied, and the result is as good as a
        deep copy. */
    method Snapshot(ghost maps: set<SparseTileMap>, ghost w: World) returns (s: SparseTileMap)
      requires w.Valid() && this in maps && Owned(maps, w)
      modifies w, w.buffers
      ensures fresh(s) && s.format == format && w.Valid() && Owned(maps + {s}, w)
      ensures s.Contents() == old(Contents())
      ensures forall m :: m in maps ==> m.Contents() == old(m.Contents())
      ensures old(w.tiles) <= w.tiles && forall t :: t in old(w.tiles) ==> t.data.bytes == old(t.data.bytes)
    {
      hide World.TileOk, World.Valid, World.Sharers, Owned, Handles, Sound, SparseTileMap.Contents;
      forall m, c | m in maps && c in m.tiles ensures m.tiles[c] in w.tiles { AtHome(m, c, maps, w); }
      s := new SparseTileMap(format);
      s.tiles := CloneAll(tiles, s, maps, w);
      Joins(s, this, maps, w);
      forall m | m in maps ensures m.Contents() == old(m.Contents()) { m.Kept(); }
    }

    /** Contents depend on the bytes of the map's tiles and nothing else. */
    twostate lemma Kept()
      requires tiles == old(tiles) && forall c :: c in tiles ==> tiles[c].data.bytes == old(tiles[c].data.bytes)
      ensures Contents() == old(Contents())
    {
    }
  }

  /** A map of fresh handles on the tiles of `m` joins the others, with the same contents. */
  lemma Joins(s: SparseTileMap, m: SparseTileMap, maps: set<SparseTileMap>, w: World)
    requires Owned(maps, w) && m in maps && s.format == m.format && (forall c :: c in m.tiles ==> c in s.tiles)
             && Handles(s.tiles, m.tiles, s, w)
    ensures Owned(maps + {s}, w) && s.Contents() == m.Contents()
  {
    forall n, c | n in maps + {s} && c in n.tiles ensures Home(n, c, w) {
      if n == s { assert Home(m, c, w); }
    }
  }

  /** `out` holds handles, meant for the map `s`, on the pixels of `source`. */
  ghost predicate Handles(out: map<Coord, BufferTile>, source: map<Coord, BufferTile>, s: SparseTileMap, w: World)
    reads w, w.tiles, source.Values
  {
    forall c :: c in out ==>
      && c in source && out[c] in w.tiles && out[c].owner == s && out[c].place == c
      && out[c].format == source[c].format && out[c].data == source[c].data
  }

  method CloneOne(out: map<Coord, BufferTile>, c: Coord, ghost source: map<Coord, BufferTile>, t: BufferTile,
          ghost s: SparseTileMap, ghost maps: set<SparseTileMap>, ghost w: World) returns (more: map<Coord, BufferTile>)
    requires w.Valid() && t in w.tiles && t.data in w.buffers && c in source && source[c] == t
             && Handles(out, source, s, w) && Owned(maps, w)
    modifies w, t.data`refs
    ensures w.Valid() && Owned(maps, w) && old(w.tiles) <= w.tiles && w.buffers == old(w.buffers)
    ensures c in more && (forall d :: d in out ==> d in more) && Handles(more, source, s, w)
  {
    hide World.TileOk, World.Valid, World.Sharers;
    var k := Clone(t, s, c, w);
    more := out[c := k];
    forall m, d | m in maps && d in m.tiles ensures Home(m, d, w) { assert old(Home(m, d, w)); }
  }

  /** The loop of `snapshot`. */
  method CloneAll(source: map<Coord, BufferTile>, ghost s: SparseTileMap, ghost maps: set<SparseTileMap>,
          ghost w: World) returns (out: map<Coord, BufferTile>)
    requires w.Valid() && Owned(maps, w) && forall c :: c in source ==> source[c] in w.tiles
    modifies w, w.buffers
    ensures w.Valid() && Owned(maps, w) && old(w.tiles) <= w.tiles && w.buffers == old(w.buffers)
    ensures forall t :: t in old(w.tiles) ==> t.data.bytes == old(t.data.bytes)
    ensures (forall c :: c in source ==> c in out) && Handles(out, source, s, w)
  {
    hide World.TileOk, World.Valid, World.Sharers, Handles, Owned;
    out := map[];
    NoHandles(source, s, w);
    var todo := source.Keys;
    while todo != {}
      invariant forall c :: c in source ==> c in out || c in todo
      invariant todo <= source.Keys && w.Valid() && Owned(maps, w) && old(w.tiles) <= w.tiles
                && w.buffers == old(w.buffers)
      invariant forall b :: b in w.buffers ==> b.bytes == old(b.bytes)
      invariant Handles(out, source, s, w)
      decreases |todo|
    {
      var c :| c in todo;
      w.Sized(source[c]);
      out := CloneOne(out, c, source, source[c], s, maps, w);
      todo := todo - {c};
    }
    forall t | t in old(w.tiles) ensures t.data in old(w.buffers) { w.Sized(t); }
  }

  lemma NoHandles(source: map<Coord, BufferTile>, s: SparseTileMap, w: World)
    ensures Handles(map[], source, s, w)
  {
  }

  predicate InRange(c: Coord, tx0: int, ty0: int, tx1: int, ty1: int) { tx0 <= c.tx <= tx1 && ty0 <= c.ty <= ty1 }

  lemma MeetsInRange(area: Rect, c: Coord)
    requires !area.IsEmpty()
    ensures InRange(c, TileIndexFor(area.x), TileIndexFor(area.y), TileIndexFor(area.Right() - 1),
            TileIndexFor(area.Bottom() - 1))
            <==> !area.Intersected(c.CanvasRect()).IsEmpty()
  {
  }

  lemma AtHome(m: SparseTileMap, c: Coord, maps: set<SparseTileMap>, w: World)
    requires Owned(maps, w) && m in maps && c in m.tiles
    ensures m.tiles[c] in w.tiles && m.tiles[c].format == m.format
  {
    assert Home(m, c, w);
  }

  lemma SizedIn(m: SparseTileMap, c: Coord, maps: set<SparseTileMap>, w: World)
    requires w.Valid() && m in maps && Owned(maps, w) && c in m.tiles
    ensures |m.tiles[c].data.bytes| == TileBytes(m.format) && m.tiles[c] in w.tiles && m.tiles[c].data in w.buffers
  {
    assert Home(m, c, w);
    w.Sized(m.tiles[c]);
  }
}
