/** The 64-byte stroke frame (include/mari/sigan/frame.hpp, sigan/src/frame.cpp). Floating-point
    fields travel as their bit patterns. */
module Frame {
  import opened Bytes

  const FRAME_SIZE := 64

  datatype StrokeFrame = StrokeFrame(
    seqNo: u64, tMs: u64, cx: u32, cy: u32, pressure: u32, tiltX: u32, tiltY: u32, rotation: u32, velocity: u32,
    layerId: u32, brushId: u32, flags: u32, origin: u8, agentId: u32)

  /** Flag bits, by position. */
  const DOWN := 1
  const MOVE := 2
  const UP := 4
  const ERASER := 8
  const SYNTHETIC := 16

  predicate HasFlag(flags: u32, bit: int)
    requires bit > 0
  {
    (flags / bit) % 2 == 1
  }

  /** A bit is set when the number is at least it, counted within twice its size. */
  lemma FlagBit(x: nat, bit: nat)
    requires bit > 0
    ensures x / bit % 2 == 1 <==> x % (2 * bit) >= bit
  {
    var q, o := x / bit / 2, x / bit % 2;
    assert x / bit == 2 * q + o;
    assert x == bit * (2 * q + o) + x % bit;
    assert bit * (2 * q + o) == (2 * bit) * q + bit * o;
    Remainder(x, 2 * bit, q, bit * o + x % bit);
  }

  lemma Remainder(x: nat, m: nat, q: nat, r: int)
    requires x == m * q + r && 0 <= r < m
    ensures x % m == r
  {
    var d := x / m - q;
    assert x == m * (x / m) + x % m;
    assert m * (x / m) - m * q == m * d;
  }

  /** The fields in wire order. */
  function Fields(f: StrokeFrame): (r: seq<seq<u8>>)
    ensures |r| == 14 && |r[0]| == |r[1]| == 8 && forall i :: 2 <= i < 14 ==> |r[i]| == 4
  {
    [PutU64(f.seqNo), PutU64(f.tMs), PutU32(f.cx), PutU32(f.cy), PutU32(f.pressure), PutU32(f.tiltX), PutU32(f.tiltY),
     PutU32(f.rotation), PutU32(f.velocity), PutU32(f.layerId), PutU32(f.brushId), PutU32(f.flags),
     [f.origin, 0, 0, 0], PutU32(f.agentId)]
  }

  function Flatten(parts: seq<seq<u8>>): seq<u8> {
    if |parts| == 0 then [] else parts[0] + Flatten(parts[1..])
  }

  /** Where part `k` starts. */
  function Offset(parts: seq<seq<u8>>, k: nat): (n: nat)
    requires k <= |parts|
  {
    if k == 0 then 0 else |parts[0]| + Offset(parts[1..], k - 1)
  }

  /** Each part sits at its offset. */
  lemma {:induction false} PartAt(parts: seq<seq<u8>>, k: nat)
    requires k < |parts|
    ensures Offset(parts, k) + |parts[k]| <= |Flatten(parts)|
    ensures Flatten(parts)[Offset(parts, k)..Offset(parts, k) + |parts[k]|] == parts[k]
  {
    if k > 0 {
      PartAt(parts[1..], k - 1);
      var o, n := Offset(parts[1..], k - 1), |parts[k]|;
      assert parts[1..][k - 1] == parts[k];
      assert Flatten(parts)[|parts[0]| + o..|parts[0]| + o + n] == Flatten(parts[1..])[o..o + n];
    }
  }

  lemma {:induction false} Layout(parts: seq<seq<u8>>, k: nat)
    requires |parts| == 14 && |parts[0]| == |parts[1]| == 8 && (forall i :: 2 <= i < 14 ==> |parts[i]| == 4) && k <= 14
    ensures Offset(parts, k) == if k < 2 then 8 * k else 16 + 4 * (k - 2)
  {
    if k > 0 {
      Layout(parts, k - 1);
      OffsetStep(parts, k - 1);
    }
  }

  lemma {:induction false} OffsetStep(parts: seq<seq<u8>>, k: nat)
    requires k < |parts|
    ensures Offset(parts, k + 1) == Offset(parts, k) + |parts[k]|
  {
    if k > 0 { OffsetStep(parts[1..], k - 1); }
  }

  lemma {:induction false} FlattenLength(parts: seq<seq<u8>>)
    ensures |Flatten(parts)| == Offset(parts, |parts|)
  {
    if |parts| > 0 { FlattenLength(parts[1..]); }
  }

  function Encode(f: StrokeFrame): (r: seq<u8>)
    ensures |r| == FRAME_SIZE
  {
    FlattenLength(Fields(f));
    Layout(Fields(f), 14);
    Flatten(Fields(f))
  }

  /** Reserved bytes 57 to 59 are read and ignored. */
  function Decode(p: seq<u8>): StrokeFrame
    requires |p| == FRAME_SIZE
  {
    StrokeFrame(GetU64(p, 0), GetU64(p, 8), GetU32(p, 16), GetU32(p, 20), GetU32(p, 24), GetU32(p, 28), GetU32(p, 32),
                GetU32(p, 36), GetU32(p, 40), GetU32(p, 44), GetU32(p, 48), GetU32(p, 52), GetU8(p, 56), GetU32(p, 60))
  }

  lemma WordField(f: StrokeFrame, k: nat)
    requires 2 <= k < 14
    ensures GetU32(Encode(f), 16 + 4 * (k - 2)) == GetU32(Fields(f)[k], 0)
  {
    hide Fields, Flatten, Offset;
    PartAt(Fields(f), k);
    Layout(Fields(f), k);
    assert Fields(f)[k][0..4] == Fields(f)[k];
  }

  lemma LongField(f: StrokeFrame, k: nat)
    requires k < 2
    ensures GetU64(Encode(f), 8 * k) == GetU64(Fields(f)[k], 0)
  {
    hide Fields, Flatten, Offset;
    PartAt(Fields(f), k);
    Layout(Fields(f), k);
    assert Fields(f)[k][0..8] == Fields(f)[k];
  }

  lemma OriginField(f: StrokeFrame)
    ensures Encode(f)[56] == f.origin
  {
    hide Flatten, Offset;
    PartAt(Fields(f), 12);
    Layout(Fields(f), 12);
    assert Encode(f)[56..60][0] == Encode(f)[56];
  }

  /** Decoding undoes encoding. */
  lemma DecodeEncode(f: StrokeFrame)
    ensures Decode(Encode(f)) == f
  {
    hide PutU32, PutU64, GetU32, GetU64, Flatten, Encode;
    LongField(f, 0);
    LongField(f, 1);
    WordField(f, 2);
    WordField(f, 3);
    WordField(f, 4);
    WordField(f, 5);
    WordField(f, 6);
    WordField(f, 7);
    WordField(f, 8);
    WordField(f, 9);
    WordField(f, 10);
    WordField(f, 11);
    WordField(f, 13);
    OriginField(f);
  }

  /** So different frames have different wire forms. */
  lemma EncodeInjective(f: StrokeFrame, g: StrokeFrame)
    requires Encode(f) == Encode(g)
    ensures f == g
  {
    hide Encode, Decode;
    DecodeEncode(f);
    DecodeEncode(g);
  }
}
