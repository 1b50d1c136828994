/** Bytes and fixed-width little-endian integers (sigan/src/frame.cpp, sigan/src/journal.cpp). */
module Bytes {

  type u8 = x: int | 0 <= x < 0x100
  type u32 = x: int | 0 <= x < 0x1_0000_0000
  type u64 = x: int | 0 <= x < 0x1_0000_0000_0000_0000

  function Zeros(n: nat): (z: seq<u8>)
    ensures |z| == n && forall i :: 0 <= i < n ==> z[i] == 0
  {
    seq(n, i => 0)
  }

  /** `256^k`. */
  function Pow256(k: nat): (r: int)
    ensures r > 0
  {
    if k == 0 then 1 else 256 * Pow256(k - 1)
  }

  /** The low `k` bytes of `n`, least significant first. */
  function PutLE(n: nat, k: nat): (r: seq<u8>)
    ensures |r| == k
  {
    if k == 0 then [] else [n % 256] + PutLE(n / 256, k - 1)
  }

  function GetLE(p: seq<u8>): nat {
    if |p| == 0 then 0 else p[0] + 256 * GetLE(p[1..])
  }

  lemma {:induction false} GetPut(n: nat, k: nat)
    requires n < Pow256(k)
    ensures GetLE(PutLE(n, k)) == n
  {
    if k > 0 {
      GetPut(n / 256, k - 1);
      assert PutLE(n, k)[1..] == PutLE(n / 256, k - 1);
    }
  }

  lemma {:induction false} GetLEBound(p: seq<u8>)
    ensures GetLE(p) < Pow256(|p|)
  {
    if |p| > 0 { GetLEBound(p[1..]); }
  }

  lemma Widths()
    ensures Pow256(1) == 0x100 && Pow256(4) == 0x1_0000_0000 && Pow256(8) == 0x1_0000_0000_0000_0000
  {
    assert Pow256(2) == 0x1_0000;
    assert Pow256(3) == 0x100_0000;
    assert Pow256(5) == 0x100_0000_0000;
    assert Pow256(6) == 0x1_0000_0000_0000;
    assert Pow256(7) == 0x100_0000_0000_0000;
  }

  function GetU8(p: seq<u8>, at: nat): u8
    requires at < |p|
  {
    p[at]
  }

  function GetU32(p: seq<u8>, at: nat): u32
    requires at + 4 <= |p|
  {
    Widths();
    GetLEBound(p[at..at + 4]);
    GetLE(p[at..at + 4])
  }

  function GetU64(p: seq<u8>, at: nat): u64
    requires at + 8 <= |p|
  {
    Widths();
    GetLEBound(p[at..at + 8]);
    GetLE(p[at..at + 8])
  }

  function PutU32(n: u32): (r: seq<u8>)
    ensures |r| == 4 && GetU32(r, 0) == n
  {
    Widths();
    GetPut(n, 4);
    var r := PutLE(n, 4);
    assert r[0..4] == r;
    r
  }

  function PutU64(n: u64): (r: seq<u8>)
    ensures |r| == 8 && GetU64(r, 0) == n
  {
    Widths();
    GetPut(n, 8);
    var r := PutLE(n, 8);
    assert r[0..8] == r;
    r
  }
}
