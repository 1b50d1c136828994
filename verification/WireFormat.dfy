/** What stands where in the bytes of the formats, as their headers describe them (frame.hpp, journal.hpp and
    canvas_hash.hpp): said by position, apart from the functions that write and read them. */
module WireFormat {
  import opened Bytes
  import opened CanvasHash
  import opened Compositor
  import opened Crc
  import opened Frame
  import opened Geometry
  import opened Image
  import opened Journal
  import B = Blend
  import P = Publisher
  import R = Recorder

  // ---- numbers in bytes ---------------------------------------------------------------------------------------

  /** The `n` bytes from `at` on as a number; byte `k` of them counts `256^k` times. */
  function Little(b: seq<u8>, at: nat, n: nat): nat
    requires at + n <= |b|
  {
    if n == 0 then 0 else Little(b, at, n - 1) + b[at + n - 1] * Pow256(n - 1)
  }

  /** The same as a two's complement of 32 bits. */
  function Signed(b: seq<u8>, at: nat): int
    requires at + 4 <= |b|
  {
    var v := Little(b, at, 4);
    if v < 0x8000_0000 then v else v - 0x1_0000_0000
  }

  lemma {:induction false} FirstByte(b: seq<u8>, at: nat, n: nat)
    requires at + n <= |b| && n > 0
    ensures Little(b, at, n) == b[at] + 256 * Little(b, at + 1, n - 1)
  {
    if n > 1 {
      FirstByte(b, at, n - 1);
      Times256(b[at + n - 1], Pow256(n - 2));
    }
  }

  lemma Times256(a: int, p: int)
    ensures a * (256 * p) == 256 * (a * p)
  {
  }

  lemma {:induction false} GetIsLittle(b: seq<u8>, at: nat, n: nat)
    requires at + n <= |b|
    ensures GetLE(b[at..at + n]) == Little(b, at, n)
    decreases n
  {
    if n > 0 {
      FirstByte(b, at, n);
      GetIsLittle(b, at + 1, n - 1);
      assert b[at..at + n][1..] == b[at + 1..at + 1 + (n - 1)];
    }
  }

  lemma FourBytes(b: seq<u8>, at: nat)
    requires at + 4 <= |b|
    ensures GetU32(b, at) == Little(b, at, 4)
  {
    GetIsLittle(b, at, 4);
  }

  lemma EightBytes(b: seq<u8>, at: nat)
    requires at + 8 <= |b|
    ensures GetU64(b, at) == Little(b, at, 8)
  {
    GetIsLittle(b, at, 8);
  }

  predicate IsText(b: seq<u8>, text: string) {
    |b| == |text| && forall k :: 0 <= k < |b| ==> b[k] == text[k] as int
  }

  // ---- the frame ----------------------------------------------------------------------------------------------

  /** The 64 bytes of a frame, field by field. */
  lemma FrameLayout(f: StrokeFrame)
    ensures var b := Encode(f);
            && Little(b, 0, 8) == f.seqNo && Little(b, 8, 8) == f.tMs
            && Little(b, 16, 4) == f.cx && Little(b, 20, 4) == f.cy && Little(b, 24, 4) == f.pressure
            && Little(b, 28, 4) == f.tiltX && Little(b, 32, 4) == f.tiltY && Little(b, 36, 4) == f.rotation
            && Little(b, 40, 4) == f.velocity && Little(b, 44, 4) == f.layerId && Little(b, 48, 4) == f.brushId
            && Little(b, 52, 4) == f.flags && b[56] == f.origin && b[57..60] == [0, 0, 0]
            && Little(b, 60, 4) == f.agentId
  {
    hide Little, Encode, GetU32, GetU64;
    var b := Encode(f);
    DecodeEncode(f);
    EightBytes(b, 0);
    EightBytes(b, 8);
    FourBytes(b, 16);
    FourBytes(b, 20);
    FourBytes(b, 24);
    FourBytes(b, 28);
    FourBytes(b, 32);
    FourBytes(b, 36);
    FourBytes(b, 40);
    FourBytes(b, 44);
    FourBytes(b, 48);
    FourBytes(b, 52);
    FourBytes(b, 60);
    Reserved(f);
  }

  lemma Reserved(f: StrokeFrame)
    ensures Encode(f)[57..60] == [0, 0, 0]
  {
    hide Flatten, Offset;
    PartAt(Fields(f), 12);
    Layout(Fields(f), 12);
    assert Encode(f)[57..60] == Encode(f)[56..60][1..];
  }

  /** The flags are the five lowest bits. */
  lemma FlagBits(flags: u32)
    ensures HasFlag(flags, DOWN) <==> flags % 2 >= 1
    ensures HasFlag(flags, MOVE) <==> flags % 4 >= 2
    ensures HasFlag(flags, UP) <==> flags % 8 >= 4
    ensures HasFlag(flags, ERASER) <==> flags % 16 >= 8
    ensures HasFlag(flags, SYNTHETIC) <==> flags % 32 >= 16
  {
    FlagBit(flags, 1);
    FlagBit(flags, 2);
    FlagBit(flags, 4);
    FlagBit(flags, 8);
    FlagBit(flags, 16);
  }

  /** Where the parts of one pen sample stand in the frame that is journalled for it. Ids are cut to 32 bits. */
  lemma PenOnWire(src: R.Source, p: R.Pen, layerId: u64, brushId: u64, flags: u32, seqNo: u64, tMs: u64)
    ensures var b := Encode(P.Stamp(R.Point(src, p, layerId, brushId, flags), seqNo, tMs));
            && Little(b, 0, 8) == seqNo && Little(b, 8, 8) == tMs && Little(b, 16, 4) == p.x && Little(b, 20, 4) == p.y
            && Little(b, 24, 4) == p.pressure && Little(b, 28, 4) == p.tiltX && Little(b, 32, 4) == p.tiltY
            && Little(b, 36, 4) == p.rotation && Little(b, 40, 4) == p.velocity
            && Little(b, 44, 4) == layerId % 0x1_0000_0000 && Little(b, 48, 4) == brushId % 0x1_0000_0000
            && Little(b, 52, 4) == flags && b[56] == src.origin && Little(b, 60, 4) == src.agentId
  {
    hide Little, Encode;
    FrameLayout(P.Stamp(R.Point(src, p, layerId, brushId, flags), seqNo, tMs));
  }

  // ---- the journal --------------------------------------------------------------------------------------------

  /** The 32 bytes at the start of a journal: name, version, own size, session and wall clock. */
  lemma HeaderLayout(sessionId: u64, wallAnchor: u64)
    ensures var h := Header(sessionId, wallAnchor);
            && IsText(h[0..8], "MARIJRNL") && Little(h, 8, 4) == 1 && Little(h, 12, 4) == 32
            && Little(h, 16, 8) == sessionId && Little(h, 24, 8) == wallAnchor
  {
    hide Little, PutU32, PutU64, GetU32, GetU64;
    var h := Header(sessionId, wallAnchor);
    assert h[8..12] == PutU32(1) && h[12..16] == PutU32(32);
    assert h[16..24] == PutU64(sessionId) && h[24..32] == PutU64(wallAnchor);
    Here4(h, 8, 1);
    Here4(h, 12, 32);
    Here8(h, 16, sessionId);
    Here8(h, 24, wallAnchor);
    assert h[0..8] == MAGIC;
  }

  lemma Here4(b: seq<u8>, at: nat, n: u32)
    requires at + 4 <= |b| && b[at..at + 4] == PutU32(n)
    ensures Little(b, at, 4) == n
  {
    hide Little;
    FourBytes(b, at);
    assert PutU32(n)[0..4] == PutU32(n);
  }

  lemma Here8(b: seq<u8>, at: nat, n: u64)
    requires at + 8 <= |b| && b[at..at + 8] == PutU64(n)
    ensures Little(b, at, 8) == n
  {
    hide Little;
    EightBytes(b, at);
    assert PutU64(n)[0..8] == PutU64(n);
  }

  /** The kinds of record, as they are stored. */
  lemma Tags()
    ensures TAG_FRAME == 1 && TAG_STROKE_END == 2 && TAG_NOTE == 3
  {
  }

  /** Tag, length, payload, and the checksum of these three. */
  lemma RecordLayout(r: Record)
    requires Encodable(r)
    ensures var b, n := EncodeRecord(r), |r.payload|;
            && |b| == 9 + n && b[0] == r.tag && Little(b, 1, 4) == n && b[5..5 + n] == r.payload
            && GetCrc(b[5 + n..]) == Crc32(b[..5 + n], ZERO)
  {
    hide Little, PutLE, Crc32, PutCrc, GetCrc;
    var b, n := EncodeRecord(r), |r.payload|;
    GetIsLittle(b, 1, 4);
    Widths();
    GetPut(n, 4);
    assert b[1..5] == PutLE(n, 4);
    assert b[..5 + n] == Body(r);
    GetPutCrc(Crc32(Body(r), ZERO));
    assert b[5 + n..] == PutCrc(Crc32(Body(r), ZERO));
  }

  // ---- what is hashed -----------------------------------------------------------------------------------------

  /** A pixel as it is hashed: red, green, blue and alpha, or nothing where it has no alpha. */
  function PixelWire(p: B.Pixel): seq<u8> { if p.a == 0 then [0, 0, 0, 0] else [p.r, p.g, p.b, p.a] }

  lemma Part(s: seq<u8>, a: nat, b: nat, i: nat, j: nat)
    requires a <= b <= |s| && i <= j <= b - a
    ensures s[a..b][i..j] == s[a + i..a + j]
  {
    var u, v, w := s[a..b], s[a..b][i..j], s[a + i..a + j];
    forall k | 0 <= k < j - i
      ensures v[k] == w[k]
    {
      assert v[k] == u[i + k] == s[a + i + k];
    }
    assert v == w;
  }

  lemma {:induction false} InkAt(ps: seq<B.Pixel>, i: nat)
    requires i < |ps|
    ensures 4 * i + 4 <= |Ink(ps)| && Ink(ps)[4 * i..4 * i + 4] == PixelWire(ps[i])
    decreases |ps|
  {
    var n := |ps| - 1;
    var head, last := Ink(ps[..n]), PixelBytes(Seen(ps[n]));
    assert Ink(ps) == head + last;
    if i < n {
      InkAt(ps[..n], i);
      assert (head + last)[4 * i..4 * i + 4] == head[4 * i..4 * i + 4];
    } else {
      assert (head + last)[4 * i..4 * i + 4] == last;
    }
  }

  lemma {:induction false} RowInkAt(rows: seq<seq<B.Pixel>>, width: nat, height: nat, y: nat)
    requires Grid(rows, width, height) && y < height
    ensures 0 <= width * y && 4 * (width * y) + 4 * width <= |RowsInk(rows)|
    ensures RowsInk(rows)[4 * (width * y)..4 * (width * y) + 4 * width] == Ink(rows[y])
    decreases height
  {
    hide Ink;
    var n := height - 1;
    var head, last := RowsInk(rows[..n]), Ink(rows[n]);
    RowsInkSize(rows[..n], width, n);
    assert (4 * width) * n == 4 * (width * n);
    if y < n {
      RowInkAt(rows[..n], width, n, y);
      assert rows[..n][y] == rows[y];
      assert (head + last)[4 * (width * y)..4 * (width * y) + 4 * width] ==
             head[4 * (width * y)..4 * (width * y) + 4 * width];
    } else {
      assert (head + last)[4 * (width * n)..4 * (width * n) + 4 * width] == last;
    }
  }

  /** Where the pixel at `(x, y)` of a canvas stands. */
  function CanvasAt(width: nat, x: nat, y: nat): (at: nat)
    ensures at >= 28
  {
    Product(width, y);
    28 + 4 * (width * y) + 4 * x
  }

  lemma Product(a: nat, b: nat)
    ensures a * b >= 0
  {
  }

  lemma CanvasHead(width: u32, height: u32, rows: seq<seq<B.Pixel>>)
    ensures var s := CanvasStream(width, height, rows);
            && |s| == 28 + |RowsInk(rows)| && IsText(s[0..20], "mari-canvas-hash/v1\n")
            && Little(s, 20, 4) == width && Little(s, 24, 4) == height && s[28..|s|] == RowsInk(rows)
  {
    hide Little, PutU32, RowsInk;
    var s := CanvasStream(width, height, rows);
    assert s[0..20] == CANVAS_DOMAIN && s[20..24] == PutU32(width) && s[24..28] == PutU32(height);
    assert s[28..|s|] == RowsInk(rows);
    Here4(s, 20, width);
    Here4(s, 24, height);
  }

  /** A canvas: the name of the format, the size, and the pixels row by row from left to right. */
  lemma CanvasLayout(width: u32, height: u32, rows: seq<seq<B.Pixel>>)
    requires Grid(rows, width, height)
    ensures var s := CanvasStream(width, height, rows);
            && |s| == 28 + (4 * width) * height && IsText(s[0..20], "mari-canvas-hash/v1\n")
            && Little(s, 20, 4) == width && Little(s, 24, 4) == height
            && forall x, y :: 0 <= x < width && 0 <= y < height ==>
                 CanvasAt(width, x, y) + 4 <= |s|
                 && s[CanvasAt(width, x, y)..CanvasAt(width, x, y) + 4] == PixelWire(rows[y][x])
  {
    hide Little, CanvasStream, RowsInk, Ink, PixelWire, IsText;
    var s := CanvasStream(width, height, rows);
    CanvasHead(width, height, rows);
    RowsInkSize(rows, width, height);
    forall x, y | 0 <= x < width && 0 <= y < height
      ensures CanvasAt(width, x, y) + 4 <= |s|
      ensures s[CanvasAt(width, x, y)..CanvasAt(width, x, y) + 4] == PixelWire(rows[y][x])
    {
      PixelInRows(s, width, height, rows, x, y);
    }
  }

  lemma PixelInRows(s: seq<u8>, width: nat, height: nat, rows: seq<seq<B.Pixel>>, x: nat, y: nat)
    requires Grid(rows, width, height) && x < width && y < height && |s| >= 28 && s[28..|s|] == RowsInk(rows)
    ensures CanvasAt(width, x, y) + 4 <= |s|
    ensures s[CanvasAt(width, x, y)..CanvasAt(width, x, y) + 4] == PixelWire(rows[y][x])
  {
    hide RowsInk, Ink, PixelWire;
    var at, ink := 4 * (width * y), RowsInk(rows);
    RowInkAt(rows, width, height, y);
    InkAt(rows[y], x);
    Part(ink, at, at + 4 * width, 4 * x, 4 * x + 4);
    Part(s, 28, |s|, at + 4 * x, at + 4 * x + 4);
  }

  lemma Here4Signed(b: seq<u8>, at: nat, v: int)
    requires at + 4 <= |b| && IsInt32(v) && b[at..at + 4] == Int32(v)
    ensures Signed(b, at) == v
  {
    hide Little, PutU32;
    Here4(b, at, v % 0x1_0000_0000);
  }

  /** Where the record of the `k`-th tile of a layer starts. */
  function RecordAt(k: nat): nat { 23 + 16392 * k }

  lemma {:induction false} RecordsAt(m: Tiles, cs: seq<Coord>, k: nat)
    requires k < |cs| && forall c :: c in cs ==> c in m
    ensures 16392 * k + 16392 <= |Records(m, cs)|
    ensures Records(m, cs)[16392 * k..16392 * k + 16392] == TileRecord(cs[k], m[cs[k]])
    decreases |cs|
  {
    hide TileRecord;
    var n := |cs| - 1;
    var head, last := Records(m, cs[..n]), TileRecord(cs[n], m[cs[n]]);
    assert Records(m, cs) == head + last;
    if k < n {
      RecordsAt(m, cs[..n], k);
      assert (head + last)[16392 * k..16392 * k + 16392] == head[16392 * k..16392 * k + 16392];
    } else {
      assert (head + last)[16392 * k..16392 * k + 16392] == last;
    }
  }

  /** One record: the tile's coordinates, and its pixels row by row. */
  ghost predicate HoldsTile(s: seq<u8>, at: nat, c: Coord, t: Tile) {
    && at + 16392 <= |s| && Signed(s, at) == c.tx && Signed(s, at + 4) == c.ty
    && forall x, y :: 0 <= x < 64 && 0 <= y < 64 ==>
         s[at + 8 + 256 * y + 4 * x..at + 8 + 256 * y + 4 * x + 4] == PixelWire(t[64 * y + x])
  }

  lemma RecordHolds(s: seq<u8>, at: nat, c: Coord, t: Tile)
    requires at + 16392 <= |s| && CoordFits(c) && s[at..at + 16392] == TileRecord(c, t)
    ensures HoldsTile(s, at, c, t)
  {
    hide Signed, Ink, Int32, PixelWire;
    var r := TileRecord(c, t);
    Part(s, at, at + 16392, 0, 4);
    Part(s, at, at + 16392, 4, 8);
    assert r[0..4] == Int32(c.tx) && r[4..8] == Int32(c.ty);
    Here4Signed(s, at, c.tx);
    Here4Signed(s, at + 4, c.ty);
    forall x, y | 0 <= x < 64 && 0 <= y < 64
      ensures s[at + 8 + 256 * y + 4 * x..at + 8 + 256 * y + 4 * x + 4] == PixelWire(t[64 * y + x])
    {
      var i := 64 * y + x;
      InkAt(t, i);
      assert r[8..16392] == Ink(t);
      Part(r, 8, 16392, 4 * i, 4 * i + 4);
      Part(s, at, at + 16392, 8 + 4 * i, 8 + 4 * i + 4);
    }
  }

  lemma CountHere(s: seq<u8>, at: nat, n: nat)
    requires at + 8 <= |s| && n < 0x1_0000_0000_0000_0000 && s[at..at + 8] == PutLE(n, 8)
    ensures Little(s, at, 8) == n
  {
    hide Little, PutLE;
    GetIsLittle(s, at, 8);
    Widths();
    GetPut(n, 8);
  }

  /** A layer: the name of the format, the size of its tiles, their records, and how many these are. */
  lemma LayerLayout(m: Tiles, cs: seq<Coord>)
    requires |cs| < 0x1_0000_0000_0000_0000 && forall c :: c in cs ==> c in m && CoordFits(c)
    ensures var s := LayerStream(m, cs);
            && |s| == RecordAt(|cs|) + 8 && IsText(s[0..19], "mari-layer-hash/v1\n") && Little(s, 19, 4) == 64
            && (forall k :: 0 <= k < |cs| ==> HoldsTile(s, RecordAt(k), cs[k], m[cs[k]]))
            && Little(s, |s| - 8, 8) == |cs|
  {
    hide Little, PutU32, PutLE, Records, TileRecord, HoldsTile, CoordFits;
    var s, n := LayerStream(m, cs), |cs|;
    assert s[0..19] == LAYER_DOMAIN && s[19..23] == PutU32(64);
    Here4(s, 19, 64);
    assert s[23..|s| - 8] == Records(m, cs) && s[|s| - 8..|s| - 8 + 8] == PutLE(n, 8);
    CountHere(s, |s| - 8, n);
    forall k | 0 <= k < n
      ensures HoldsTile(s, RecordAt(k), cs[k], m[cs[k]])
    {
      RecordsAt(m, cs, k);
      Part(s, 23, |s| - 8, 16392 * k, 16392 * k + 16392);
      RecordHolds(s, RecordAt(k), cs[k], m[cs[k]]);
    }
  }
}
