/** What the peer holds: complete frames over a history of connections, each of which may have been
    cut at any byte. */
module Delivery {
  import opened Bytes
  import opened Frame
  import opened PipeSink

  /** A wire frame differs from the journal's frame at most by blanked layer and brush ids. */
  predicate Blanked(w: StrokeFrame, f: StrokeFrame) {
    && w == f.(layerId := w.layerId, brushId := w.brushId)
    && (w.layerId == f.layerId || w.layerId == 0)
    && (w.brushId == f.brushId || w.brushId == 0)
  }

  /** The connection carries consecutive journal frames from sequence number `s`, each a whole write. */
  ghost predicate Carries(l: Link, s: nat, journal: seq<StrokeFrame>) {
    && 1 <= s && s - 1 + |l.writes| <= |journal|
    && (l.torn == [] || |l.torn| == FRAME_SIZE)
    && forall k :: 0 <= k < |l.writes| ==> IsWireFrame(l.writes[k], journal[s - 1 + k])
  }

  ghost predicate IsWireFrame(write: seq<u8>, f: StrokeFrame) {
    |write| == FRAME_SIZE && write == Encode(Decode(write)) && Blanked(Decode(write), f)
  }

  /** Complete frames in a byte stream of fixed-size frames. */
  function Complete(wire: seq<u8>): nat { |wire| / FRAME_SIZE }

  function Chunk(wire: seq<u8>, k: nat): (c: seq<u8>)
    requires k < Complete(wire)
    ensures |c| == FRAME_SIZE
  {
    wire[FRAME_SIZE * k..FRAME_SIZE * k + FRAME_SIZE]
  }

  lemma {:induction false} FlattenFrames(writes: seq<seq<u8>>)
    requires forall k :: 0 <= k < |writes| ==> |writes[k]| == FRAME_SIZE
    ensures |Flatten(writes)| == FRAME_SIZE * |writes|
    ensures forall k :: 0 <= k < |writes| ==>
            FRAME_SIZE * k + FRAME_SIZE <= |Flatten(writes)| && Chunk(Flatten(writes), k) == writes[k]
  {
    if |writes| > 0 {
      var rest := Flatten(writes[1..]);
      FlattenFrames(writes[1..]);
      forall k | 0 <= k < |writes|
        ensures FRAME_SIZE * k + FRAME_SIZE <= |Flatten(writes)| && Chunk(Flatten(writes), k) == writes[k]
      {
        if k > 0 {
          assert writes[1..][k - 1] == writes[k] && Chunk(rest, k - 1) == writes[k];
          assert Flatten(writes)[FRAME_SIZE * k..FRAME_SIZE * k + FRAME_SIZE]
                 == rest[FRAME_SIZE * (k - 1)..FRAME_SIZE * (k - 1) + FRAME_SIZE];
        }
      }
    }
  }

  /** Whatever byte the connection broke at, the complete frames at the peer are the first accepted
      writes: consecutive sequence numbers, payload unchanged but for blanked ids. */
  lemma PeerSees(l: Link, s: nat, journal: seq<StrokeFrame>)
    requires l.Consistent() && Carries(l, s, journal)
    ensures Complete(l.wire) <= |l.writes|
    ensures forall k :: 0 <= k < Complete(l.wire) ==>
                          Chunk(l.wire, k) == l.writes[k] && Blanked(Decode(Chunk(l.wire, k)), journal[s - 1 + k])
  {
    hide Decode, Encode, Flatten;
    var all := Flatten(l.writes);
    FlattenFrames(l.writes);
    forall k | 0 <= k < Complete(l.wire)
      ensures k < |l.writes| && Chunk(l.wire, k) == l.writes[k]
    {
      assert FRAME_SIZE * k + FRAME_SIZE <= |l.wire|;
      if |all| < |l.wire| { assert l.wire[..|all|] == all; }
      assert FRAME_SIZE * k + FRAME_SIZE <= |all|;
      assert l.wire[FRAME_SIZE * k..FRAME_SIZE * k + FRAME_SIZE] == all[FRAME_SIZE * k..FRAME_SIZE * k + FRAME_SIZE];
      assert Chunk(all, k) == l.writes[k];
    }
    if Complete(l.wire) > 0 { assert Complete(l.wire) - 1 < |l.writes|; }
    forall k | 0 <= k < Complete(l.wire)
      ensures Blanked(Decode(Chunk(l.wire, k)), journal[s - 1 + k])
    {
      assert IsWireFrame(l.writes[k], journal[s - 1 + k]);
    }
  }

  /** Last sequence number completely received on a connection that started at `s`. */
  function Reach(l: Link, s: nat): int { s - 1 + Complete(l.wire) }

  /** Highest sequence number the peer holds over all connections. */
  function Held(links: seq<Link>, starts: seq<nat>): (h: nat)
    requires |links| == |starts|
  {
    if |links| == 0 then 0
    else
      var before := Held(links[..|links| - 1], starts[..|links| - 1]);
      var r := Reach(links[|links| - 1], starts[|links| - 1]);
      if before < r then r else before
  }

  /** Every connection resumed no later than the first frame the peer was missing. */
  ghost predicate Resumed(links: seq<Link>, starts: seq<nat>)
    requires |links| == |starts|
  {
    forall i :: 0 <= i < |links| ==> 1 <= starts[i] <= Held(links[..i], starts[..i]) + 1
  }

  /** Some connection brought frame `x` to the peer completely. */
  predicate PeerHas(links: seq<Link>, starts: seq<nat>, x: int)
    requires |links| == |starts|
  {
    |links| > 0 &&
    var n := |links| - 1;
    (PeerHas(links[..n], starts[..n], x) || starts[n] <= x <= Reach(links[n], starts[n]))
  }

  /** With safe resumption there is no hole: the peer holds exactly 1 up to `Held`. */
  lemma {:induction false} NoHoles(links: seq<Link>, starts: seq<nat>, x: int)
    requires |links| == |starts| && Resumed(links, starts)
    ensures PeerHas(links, starts, x) <==> 1 <= x <= Held(links, starts)
  {
    if |links| > 0 {
      var n := |links| - 1;
      var pl, ps := links[..n], starts[..n];
      forall i | 0 <= i < n
        ensures 1 <= ps[i] <= Held(pl[..i], ps[..i]) + 1
      {
        assert pl[..i] == links[..i] && ps[..i] == starts[..i];
      }
      NoHoles(pl, ps, x);
    }
  }

  /** A connection that resumes past a missing frame leaves a hole as soon as it delivers anything:
      the safe resumption point is not only sufficient but needed. */
  lemma HoleAfterBadResume(links: seq<Link>, starts: seq<nat>, l: Link, s: nat)
    requires |links| == |starts| && Resumed(links, starts)
    requires s > Held(links, starts) + 1 && Complete(l.wire) > 0
    ensures !PeerHas(links + [l], starts + [s], Held(links, starts) + 1) && PeerHas(links + [l], starts + [s], s)
  {
    NoHoles(links, starts, Held(links, starts) + 1);
    assert (links + [l])[..|links|] == links && (starts + [s])[..|starts|] == starts;
  }

  /** More bytes on the last connection only add frames. */
  lemma HeldGrows(links: seq<Link>, starts: seq<nat>, l: Link, s: nat)
    requires |links| == |starts|
    ensures Held(links + [l], starts + [s]) >= Held(links, starts)
    ensures Held(links + [l], starts + [s]) >= Reach(l, s)
    ensures Held(links + [l], starts + [s]) == Held(links, starts) || Held(links + [l], starts + [s]) == Reach(l, s)
  {
    assert (links + [l])[..|links|] == links && (starts + [s])[..|starts|] == starts;
  }
}
