/** Stroke summaries read back from a journal (sigan/src/prooflog.cpp). */
module ProofLog {
  import opened Bytes
  import opened Frame
  import opened Origin

  datatype Summary = Summary(
    seqFirst: u64, seqLast: u64, tStart: u64, tEnd: u64, layerId: u32, brushId: u32, pointCount: nat,
    eraser: bool, origin: u8, agentId: u32, synthetic: bool, x0: u32, y0: u32, x1: u32, y1: u32)

  predicate IsDown(f: StrokeFrame) { HasFlag(f.flags, DOWN) }
  predicate IsUp(f: StrokeFrame) { HasFlag(f.flags, UP) }
  predicate IsSynthetic(f: StrokeFrame) { HasFlag(f.flags, SYNTHETIC) }

  // ---- what the summaries are summaries of ---------------------------------------------------------

  /** A stroke's frames: a Down can only start it, an Up can only end it. */
  predicate IsBlock(b: seq<StrokeFrame>) {
    && |b| > 0
    && (forall i :: 0 < i < |b| ==> !IsDown(b[i]))
    && (forall i :: 0 <= i < |b| - 1 ==> !IsUp(b[i]))
  }

  function Join(blocks: seq<seq<StrokeFrame>>): seq<StrokeFrame> {
    if |blocks| == 0 then [] else Join(blocks[..|blocks| - 1]) + blocks[|blocks| - 1]
  }

  /** Two neighbouring strokes are apart for a reason. */
  predicate Apart(b: seq<StrokeFrame>, c: seq<StrokeFrame>) {
    |b| > 0 && |c| > 0 && (IsUp(b[|b| - 1]) || IsDown(c[0]))
  }

  ghost predicate AreBlocks(blocks: seq<seq<StrokeFrame>>) {
    && (forall i :: 0 <= i < |blocks| ==> IsBlock(blocks[i]))
    && (forall i :: 0 < i < |blocks| ==> Apart(blocks[i - 1], blocks[i]))
  }

  /** The frames fall into strokes this way. */
  ghost predicate IsSplit(frames: seq<StrokeFrame>, blocks: seq<seq<StrokeFrame>>) {
    AreBlocks(blocks) && Join(blocks) == frames
  }

  function Describe(b: seq<StrokeFrame>): Summary
    requires |b| > 0
  {
    var f, l := b[0], b[|b| - 1];
    Summary(f.seqNo, l.seqNo, f.tMs, l.tMs, f.layerId, f.brushId, |b|, HasFlag(f.flags, ERASER), f.origin, f.agentId,
            IsSynthetic(f), f.cx, f.cy, l.cx, l.cy)
  }

  ghost predicate Describes(out: seq<Summary>, blocks: seq<seq<StrokeFrame>>) {
    |out| == |blocks| && forall i :: 0 <= i < |out| ==> |blocks[i]| > 0 && out[i] == Describe(blocks[i])
  }

  lemma JoinAppend(blocks: seq<seq<StrokeFrame>>, b: seq<StrokeFrame>)
    ensures Join(blocks + [b]) == Join(blocks) + b
  {
    assert (blocks + [b])[..|blocks|] == blocks;
  }

  /** The last stroke starts where it must. */
  lemma BreakAt(a: seq<seq<StrokeFrame>>)
    requires AreBlocks(a) && |a| > 0
    ensures var p := |Join(a[..|a| - 1])|;
            p < |Join(a)| && (p == 0 || IsUp(Join(a)[p - 1]) || IsDown(Join(a)[p]))
  {
    hide IsUp, IsDown;
    assert IsBlock(a[|a| - 1]);
    if |a| > 1 {
      assert IsBlock(a[|a| - 2]) && Apart(a[|a| - 2], a[|a| - 1]);
      assert Join(a[..|a| - 1]) == Join(a[..|a| - 1][..|a| - 2]) + a[|a| - 2];
    }
  }

  lemma Inside(a: seq<seq<StrokeFrame>>, q: nat)
    requires AreBlocks(a) && |a| > 0 && |Join(a[..|a| - 1])| < q < |Join(a)|
    ensures !IsUp(Join(a)[q - 1]) && !IsDown(Join(a)[q])
  {
    hide IsUp, IsDown;
    var p, l := |Join(a[..|a| - 1])|, a[|a| - 1];
    assert IsBlock(l);
    assert Join(a)[q] == l[q - p] && Join(a)[q - 1] == l[q - 1 - p];
  }

  lemma SameEnd(a: seq<seq<StrokeFrame>>, b: seq<seq<StrokeFrame>>)
    requires AreBlocks(a) && AreBlocks(b) && Join(a) == Join(b) && |a| > 0 && |b| > 0
    ensures |Join(a[..|a| - 1])| <= |Join(b[..|b| - 1])|
  {
    hide IsUp, IsDown, AreBlocks;
    BreakAt(a);
    if |Join(a[..|a| - 1])| > |Join(b[..|b| - 1])| { Inside(b, |Join(a[..|a| - 1])|); }
  }

  lemma NoEmptyJoin(a: seq<seq<StrokeFrame>>)
    requires AreBlocks(a)
    ensures |Join(a)| == 0 <==> |a| == 0
  {
    if |a| > 0 { BreakAt(a); }
  }

  /** There is only one way to fall into strokes. */
  lemma {:induction false} SplitUnique(a: seq<seq<StrokeFrame>>, b: seq<seq<StrokeFrame>>)
    requires AreBlocks(a) && AreBlocks(b) && Join(a) == Join(b)
    ensures a == b
  {
    hide IsBlock, Apart;
    NoEmptyJoin(a);
    NoEmptyJoin(b);
    if |a| > 0 {
      SameEnd(a, b);
      SameEnd(b, a);
      var la, lb := a[|a| - 1], b[|b| - 1];
      var pa, pb := Join(a[..|a| - 1]), Join(b[..|b| - 1]);
      assert pa == Join(a)[..|pa|] && pb == Join(b)[..|pb|];
      assert la == Join(a)[|pa|..] && lb == Join(b)[|pb|..];
      SplitUnique(a[..|a| - 1], b[..|b| - 1]);
      assert a == a[..|a| - 1] + [la] && b == b[..|b| - 1] + [lb];
    }
  }

  // ---- summarizeStrokes -------------------------------------------------------------------------

  function Begin(f: StrokeFrame): Summary {
    Summary(f.seqNo, 0, f.tMs, 0, f.layerId, f.brushId, 0, HasFlag(f.flags, ERASER), f.origin, f.agentId,
            IsSynthetic(f), f.cx, f.cy, 0, 0)
  }

  function Extend(cur: Summary, f: StrokeFrame): Summary {
    cur.(seqLast := f.seqNo, tEnd := f.tMs, x1 := f.cx, y1 := f.cy, pointCount := cur.pointCount + 1)
  }

  /** The loop over the journal's frames. The summaries describe the one split into strokes, and no
      frame is lost: unfinished strokes are summarised too. */
  method SummarizeStrokes(frames: seq<StrokeFrame>) returns (out: seq<Summary>, ghost blocks: seq<seq<StrokeFrame>>)
    ensures IsSplit(frames, blocks) && Describes(out, blocks)
    ensures forall bs :: IsSplit(frames, bs) ==> Describes(out, bs)
  {
    hide IsUp, IsDown, IsSynthetic, HasFlag, Describe, Extend, Begin, Partial, IsSplit, Describes;
    out, blocks := [], [];
    var cur := Summary(0, 0, 0, 0, 0, 0, 0, false, 0, 0, false, 0, 0, 0, 0);
    var open := false;
    ghost var block: seq<StrokeFrame> := [];
    NothingSeen(cur);
    var i := 0;
    while i < |frames|
      invariant 0 <= i <= |frames| && Partial(frames[..i], out, blocks, cur, block)
      invariant open <==> |block| > 0
      invariant if open then !EndsUp(block) else |blocks| > 0 ==> EndsUp(blocks[|blocks| - 1])
    {
      var f := frames[i];
      ghost var seen := frames[..i];
      assert frames[..i + 1] == seen + [f];
      if !open || IsDown(f) {
        if open {
          Finish(seen, out, blocks, cur, block);
          out := out + [cur];
          blocks := blocks + [block];
        }
        StartBlock(seen, out, blocks, cur, f);
        cur := Extend(Begin(f), f);
        block := [f];
        open := true;
      } else {
        BlockGrows(seen, out, blocks, cur, block, f);
        cur := Extend(cur, f);
        block := block + [f];
      }
      if IsUp(f) {
        Finish(frames[..i + 1], out, blocks, cur, block);
        out := out + [cur];
        blocks := blocks + [block];
        block := [];
        open := false;
      }
      i := i + 1;
    }
    assert frames[..i] == frames;
    if open {
      Finish(frames, out, blocks, cur, block);
      out := out + [cur];
      blocks := blocks + [block];
      block := [];
    }
    Finished(frames, out, blocks, cur, block);
    forall bs | IsSplit(frames, bs) ensures bs == blocks { OneSplit(frames, bs, blocks); }
  }

  lemma OneSplit(frames: seq<StrokeFrame>, a: seq<seq<StrokeFrame>>, b: seq<seq<StrokeFrame>>)
    requires IsSplit(frames, a) && IsSplit(frames, b)
    ensures a == b
  {
    hide AreBlocks;
    SplitUnique(a, b);
  }

  lemma DescribeGrows(b: seq<StrokeFrame>, f: StrokeFrame)
    requires |b| > 0
    ensures Describe(b + [f]) == Extend(Describe(b), f)
  {
    hide HasFlag;
  }

  lemma DescribeOne(f: StrokeFrame)
    ensures Describe([f]) == Extend(Begin(f), f)
  {
    hide HasFlag;
  }

  predicate EndsUp(b: seq<StrokeFrame>) { |b| > 0 && IsUp(b[|b| - 1]) }

  /** `out` and `cur` summarise the frames seen so far. */
  ghost predicate Partial(seen: seq<StrokeFrame>, out: seq<Summary>, blocks: seq<seq<StrokeFrame>>, cur: Summary,
          block: seq<StrokeFrame>) {
    && Describes(out, blocks) && AreBlocks(blocks) && Join(blocks) + block == seen
    && (|block| > 0 ==>
       cur == Describe(block) && IsBlock(block) && (|blocks| > 0 ==> Apart(blocks[|blocks| - 1], block)))
  }

  lemma Finish(seen: seq<StrokeFrame>, out: seq<Summary>, blocks: seq<seq<StrokeFrame>>, cur: Summary,
          block: seq<StrokeFrame>)
    requires Partial(seen, out, blocks, cur, block) && |block| > 0
    ensures Partial(seen, out + [cur], blocks + [block], cur, [])
  {
    hide IsBlock, Apart, Describe, AreBlocks, Describes, Join;
    JoinAppend(blocks, block);
    DescribesAppend(out, blocks, block);
    BlocksAppend(blocks, block);
    assert Join(blocks + [block]) + [] == seen;
  }

  lemma NothingSeen(cur: Summary)
    ensures Partial([], [], [], cur, [])
  {
  }

  lemma Finished(frames: seq<StrokeFrame>, out: seq<Summary>, blocks: seq<seq<StrokeFrame>>, cur: Summary,
          block: seq<StrokeFrame>)
    requires Partial(frames, out, blocks, cur, block) && |block| == 0
    ensures IsSplit(frames, blocks) && Describes(out, blocks)
  {
    hide AreBlocks, Describes;
    assert block == [] && Join(blocks) + [] == Join(blocks);
  }

  lemma DescribesAppend(out: seq<Summary>, blocks: seq<seq<StrokeFrame>>, b: seq<StrokeFrame>)
    requires Describes(out, blocks) && |b| > 0
    ensures Describes(out + [Describe(b)], blocks + [b])
  {
    hide Describe;
  }

  lemma BlocksAppend(blocks: seq<seq<StrokeFrame>>, b: seq<StrokeFrame>)
    requires AreBlocks(blocks) && IsBlock(b) && (|blocks| > 0 ==> Apart(blocks[|blocks| - 1], b))
    ensures AreBlocks(blocks + [b])
  {
    hide IsBlock, Apart;
  }

  lemma StartBlock(seen: seq<StrokeFrame>, out: seq<Summary>, blocks: seq<seq<StrokeFrame>>, cur: Summary,
          f: StrokeFrame)
    requires Partial(seen, out, blocks, cur, [])
    requires |blocks| > 0 ==> EndsUp(blocks[|blocks| - 1]) || IsDown(f)
    ensures Partial(seen + [f], out, blocks, Extend(Begin(f), f), [f])
  {
    hide IsUp, IsDown, Describes, Describe, Extend, Begin;
    DescribeOne(f);
    assert Join(blocks) + [f] == (Join(blocks) + []) + [f];
  }

  lemma BlockGrows(seen: seq<StrokeFrame>, out: seq<Summary>, blocks: seq<seq<StrokeFrame>>, cur: Summary,
          block: seq<StrokeFrame>, f: StrokeFrame)
    requires Partial(seen, out, blocks, cur, block) && |block| > 0 && !EndsUp(block) && !IsDown(f)
    ensures Partial(seen + [f], out, blocks, Extend(cur, f), block + [f])
  {
    hide IsUp, IsDown, Describes, Describe, Extend, AreBlocks;
    DescribeGrows(block, f);
    assert Join(blocks) + (block + [f]) == (Join(blocks) + block) + [f];
  }

  /** Point counts add up to the number of frames. */
  function Points(out: seq<Summary>): nat {
    if |out| == 0 then 0 else Points(out[..|out| - 1]) + out[|out| - 1].pointCount
  }

  lemma {:induction false} PointsAddUp(out: seq<Summary>, blocks: seq<seq<StrokeFrame>>)
    requires Describes(out, blocks)
    ensures Points(out) == |Join(blocks)|
  {
    hide HasFlag;
    if |out| > 0 { PointsAddUp(out[..|out| - 1], blocks[..|blocks| - 1]); }
  }

  // ---- counts per origin ----------------------------------------------------------------------------

  /** Summaries per origin, brush strokes or region operations. */
  function Tally(strokes: seq<Summary>, synthetic: bool): Stats {
    if |strokes| == 0 then NONE
    else
      var init, s := Tally(strokes[..|strokes| - 1], synthetic), strokes[|strokes| - 1];
      if s.synthetic == synthetic then Add(init, s.origin, 1) else init
  }

  /** The summary is of this kind and origin. */
  predicate CountsIn(s: Summary, synthetic: bool, k: nat) { s.synthetic == synthetic && InSlot(s.origin, k) }

  /** Slot by slot the counts are the numbers of such summaries. */
  lemma {:induction false} TallyCount(strokes: seq<Summary>, synthetic: bool, k: nat)
    requires k < SLOTS
    ensures Tally(strokes, synthetic)[k] == |set i | 0 <= i < |strokes| && CountsIn(strokes[i], synthetic, k) :: i|
    decreases |strokes|
  {
    hide Add, CountsIn;
    if |strokes| > 0 {
      var n := |strokes| - 1;
      var head := strokes[..n];
      TallyCount(head, synthetic, k);
      SummaryAdds(Tally(head, synthetic), strokes[n], synthetic, k);
      OneMore(set i | 0 <= i < n && CountsIn(head[i], synthetic, k) :: i,
        set i | 0 <= i < |strokes| && CountsIn(strokes[i], synthetic, k) :: i, n, CountsIn(strokes[n], synthetic, k));
    }
  }

  lemma SummaryAdds(st: Stats, s: Summary, synthetic: bool, k: nat)
    requires k < SLOTS
    ensures (if s.synthetic == synthetic then Add(st, s.origin, 1) else st)[k] ==
            st[k] + if CountsIn(s, synthetic, k) then 1 else 0
  {
    hide Add, InSlot;
    AddAt(st, s.origin, 1, k);
  }

  method BrushStrokeStats(strokes: seq<Summary>) returns (st: Stats)
    ensures st == Tally(strokes, false)
  {
    hide Add;
    st := NONE;
    var i := 0;
    while i < |strokes|
      invariant 0 <= i <= |strokes| && st == Tally(strokes[..i], false)
    {
      assert strokes[..i + 1][..i] == strokes[..i];
      if !strokes[i].synthetic { st := Add(st, strokes[i].origin, 1); }
      i := i + 1;
    }
    assert strokes[..i] == strokes;
  }

  method RegionOpStats(strokes: seq<Summary>) returns (st: Stats)
    ensures st == Tally(strokes, true)
  {
    hide Add;
    st := NONE;
    var i := 0;
    while i < |strokes|
      invariant 0 <= i <= |strokes| && st == Tally(strokes[..i], true)
    {
      assert strokes[..i + 1][..i] == strokes[..i];
      if strokes[i].synthetic { st := Add(st, strokes[i].origin, 1); }
      i := i + 1;
    }
    assert strokes[..i] == strokes;
  }

  /** Strokes that did not start with a Down. */
  function Undeclared(blocks: seq<seq<StrokeFrame>>, synthetic: bool): Stats
    requires forall i :: 0 <= i < |blocks| ==> |blocks[i]| > 0
  {
    if |blocks| == 0 then NONE
    else
      var init, f := Undeclared(blocks[..|blocks| - 1], synthetic), blocks[|blocks| - 1][0];
      if !IsDown(f) && IsSynthetic(f) == synthetic then Add(init, f.origin, 1) else init
  }

  /** Only the first frame of a stroke counts as a start. */
  lemma {:induction false} DownsBlock(frames: seq<StrokeFrame>, b: seq<StrokeFrame>, synthetic: bool)
    requires IsBlock(b)
    ensures Downs(frames + b, synthetic) ==
            if IsDown(b[0]) && IsSynthetic(b[0]) == synthetic then Add(Downs(frames, synthetic), b[0].origin, 1)
                else Downs(frames, synthetic)
  {
    hide Add, HasFlag;
    var init, f := b[..|b| - 1], b[|b| - 1];
    assert frames + b == (frames + init) + [f];
    DownsAppend(frames + init, f, synthetic);
    if |b| > 1 {
      DownsBlock(frames, init, synthetic);
    } else {
      assert frames + init == frames;
    }
  }

  /** What the log counts is what the publisher counted plus the strokes without a Down. */
  lemma {:induction false} TallySplits(out: seq<Summary>, blocks: seq<seq<StrokeFrame>>, synthetic: bool)
    requires AreBlocks(blocks) && Describes(out, blocks)
    ensures forall i :: 0 <= i < |blocks| ==> |blocks[i]| > 0
    ensures Tally(out, synthetic) == Sum(Downs(Join(blocks), synthetic), Undeclared(blocks, synthetic))
  {
    hide Add, IsDown, IsUp, HasFlag;
    if |blocks| > 0 {
      var n := |blocks| - 1;
      var b := blocks[n];
      TallySplits(out[..n], blocks[..n], synthetic);
      assert IsBlock(b);
      DownsBlock(Join(blocks[..n]), b, synthetic);
      AddSum(Downs(Join(blocks[..n]), synthetic), Undeclared(blocks[..n], synthetic), b[0].origin, 1);
      assert out[n].origin == b[0].origin && out[n].synthetic == IsSynthetic(b[0]);
    }
  }

  /** Frame `i` starts a stroke properly or goes on with one. */
  predicate InStroke(frames: seq<StrokeFrame>, i: nat)
    requires i < |frames|
  {
    IsDown(frames[i]) || (i > 0 && !IsUp(frames[i - 1]))
  }

  /** Every stroke starts with a Down. */
  ghost predicate Regular(frames: seq<StrokeFrame>) {
    forall i :: 0 <= i < |frames| ==> InStroke(frames, i)
  }

  ghost predicate AllDeclared(blocks: seq<seq<StrokeFrame>>) {
    forall i :: 0 <= i < |blocks| ==> |blocks[i]| > 0 && IsDown(blocks[i][0])
  }

  lemma {:induction false} RegularBlocks(blocks: seq<seq<StrokeFrame>>)
    requires AreBlocks(blocks)
    ensures Regular(Join(blocks)) <==> AllDeclared(blocks)
  {
    hide IsDown, IsUp;
    var n := |blocks| - 1;
    if n >= 0 {
      var p, b := Join(blocks[..n]), blocks[n];
      assert IsBlock(b);
      RegularBlocks(blocks[..n]);
      LastOfJoin(blocks[..n]);
      assert n > 0 ==> Apart(blocks[n - 1], blocks[n]);
      RegularAppend(p, b);
      if AllDeclared(blocks) { assert IsDown(blocks[n][0]); }
    }
  }

  lemma LastOfJoin(blocks: seq<seq<StrokeFrame>>)
    requires AreBlocks(blocks)
    ensures |blocks| > 0 ==>
            |blocks[|blocks| - 1]| > 0 && |Join(blocks)| > 0
            && Join(blocks)[|Join(blocks)| - 1] == blocks[|blocks| - 1][|blocks[|blocks| - 1]| - 1]
  {
    hide IsDown, IsUp;
    if |blocks| > 0 { assert IsBlock(blocks[|blocks| - 1]); }
  }

  lemma RegularAppend(p: seq<StrokeFrame>, b: seq<StrokeFrame>)
    requires IsBlock(b) && (|p| > 0 ==> IsUp(p[|p| - 1]) || IsDown(b[0]))
    ensures Regular(p + b) <==> Regular(p) && IsDown(b[0])
  {
    hide HasFlag;
    var all := p + b;
    forall i | 0 <= i < |p| ensures InStroke(all, i) == InStroke(p, i) {
    }
    assert InStroke(all, |p|) <==> IsDown(b[0]);
    forall i | |p| < i < |all| ensures InStroke(all, i) {
      assert !IsUp(b[i - |p| - 1]);
    }
    if Regular(all) {
      forall i | 0 <= i < |p| ensures InStroke(p, i) {
        assert InStroke(all, i);
      }
    }
  }

  lemma {:induction false} UndeclaredNone(blocks: seq<seq<StrokeFrame>>)
    requires forall i :: 0 <= i < |blocks| ==> |blocks[i]| > 0
    ensures AllDeclared(blocks) <==> Undeclared(blocks, false) == NONE && Undeclared(blocks, true) == NONE
  {
    hide IsDown, IsSynthetic;
    var n := |blocks| - 1;
    if n >= 0 {
      UndeclaredNone(blocks[..n]);
      if IsDown(blocks[n][0]) {
        assert AllDeclared(blocks) <==> AllDeclared(blocks[..n]);
      } else {
        AddNotNone(Undeclared(blocks[..n], IsSynthetic(blocks[n][0])), blocks[n][0].origin);
      }
    }
  }

  lemma AddNotNone(st: Stats, origin: u8)
    ensures Add(st, origin, 1) != NONE
  {
    assert Add(st, origin, 1)[Slot(origin)] > 0;
  }

  lemma SumNone(a: Stats, b: Stats)
    ensures Sum(a, b) == a <==> b == NONE
  {
    assert Sum(a, b) == a ==> forall i :: 0 <= i < SLOTS ==> Sum(a, b)[i] == a[i];
    assert b == NONE <==> b[0] == 0 && b[1] == 0 && b[2] == 0 && b[3] == 0 && b[4] == 0 && b[5] == 0;
  }

  /** The log's counts and the publisher's counts agree, on both axes, exactly when every stroke in the
      journal starts with a Down. */
  lemma LogAgrees(frames: seq<StrokeFrame>, out: seq<Summary>, blocks: seq<seq<StrokeFrame>>)
    requires IsSplit(frames, blocks) && Describes(out, blocks)
    ensures (Tally(out, false) == Downs(frames, false) && Tally(out, true) == Downs(frames, true)) <==> Regular(frames)
  {
    hide Add, IsBlock, Apart, Sum;
    TallySplits(out, blocks, false);
    TallySplits(out, blocks, true);
    RegularBlocks(blocks);
    UndeclaredNone(blocks);
    SumNone(Downs(frames, false), Undeclared(blocks, false));
    SumNone(Downs(frames, true), Undeclared(blocks, true));
  }
}
