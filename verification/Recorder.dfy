/** The recorder between drawing and the publisher (record/src/sigan_recorder.cpp,
    app/src/stroke_entry.cpp): every stroke and region operation passes through here, and is counted here. */
module Recorder {
  import opened Bytes
  import opened Crc
  import opened Frame
  import opened Geometry
  import opened Journal
  import opened JournalWriter
  import opened Origin
  import opened PipeSink
  import opened Publisher
  import opened ProofLog
  import opened Wrappers

  /** Who draws: origin and agent digest travel together. */
  datatype Source = Source(origin: u8, agentId: u32)

  /** One pen sample; coordinates and pressures as 32-bit patterns, `tMs` what the clock says. */
  datatype Pen = Pen(x: u32, y: u32, pressure: u32, tiltX: u32, tiltY: u32, rotation: u32, velocity: u32, tMs: u64)

  datatype RegionOp = RegionOp(area: Rect, layerId: u64, changedTiles: nat, eraser: bool)

  datatype Tallies = Tallies(strokes: Stats, regionOps: Stats, tiles: Stats)

  function Point(src: Source, p: Pen, layerId: u64, brushId: u64, flags: u32): Sample {
    Sample(p.x, p.y, p.pressure, p.tiltX, p.tiltY, p.rotation, p.velocity, layerId, brushId, flags, src.origin,
      src.agentId)
  }

  const NOTHING := Tallies(NONE, NONE, NONE)

  function Plus(a: Tallies, b: Tallies): Tallies {
    Tallies(Sum(a.strokes, b.strokes), Sum(a.regionOps, b.regionOps), Sum(a.tiles, b.tiles))
  }

  /** The flag word of a frame: one phase bit, and the two kinds of bit that may join it. */
  function Flags(phase: nat, eraser: bool, synthetic: bool): (flags: u32)
    requires phase == DOWN || phase == MOVE || phase == UP
    ensures HasFlag(flags, DOWN) == (phase == DOWN) && HasFlag(flags, MOVE) == (phase == MOVE)
    ensures HasFlag(flags, UP) == (phase == UP)
    ensures HasFlag(flags, SYNTHETIC) == synthetic && HasFlag(flags, ERASER) == eraser
  {
    phase + (if eraser then ERASER else 0) + if synthetic then SYNTHETIC else 0
  }

  /** Recovery of the journal as it stands loses no frame: the last stroke is marked as ended. */
  predicate Closed(rs: seq<Record>) {
    FramesOf(rs[..LastEnd(rs)]) == FramesOf(rs)
  }

  lemma ClosedByEnd(rs: seq<Record>, seqNo: u64)
    ensures Closed(rs + [Record(TAG_STROKE_END, PutU64(seqNo))])
  {
    hide FramesOf, PutU64;
    var all := rs + [Record(TAG_STROKE_END, PutU64(seqNo))];
    assert all[..|all|] == all;
  }

  lemma ClosedWithNote(rs: seq<Record>, after: seq<Record>)
    requires Closed(rs) && Noted(rs, after)
    ensures Closed(after)
  {
    hide FramesOf;
    if after != rs {
      var p :| after == rs + [Record(TAG_NOTE, p)];
      assert after[..|rs|] == rs;
      assert after[..LastEnd(rs)] == rs[..LastEnd(rs)];
      FramesAppend(rs, Record(TAG_NOTE, p));
      assert FramesOf(rs) + [] == FramesOf(rs);
    }
  }

  /** A journal of whole strokes. */
  ghost predicate WholeStrokes(frames: seq<StrokeFrame>) {
    Regular(frames) && (|frames| > 0 ==> IsUp(frames[|frames| - 1]))
  }

  /** One whole brush stroke or region operation. */
  ghost predicate IsStroke(b: seq<StrokeFrame>, origin: u8, synthetic: bool) {
    IsBlock(b) && IsDown(b[0]) && IsUp(b[|b| - 1]) && IsSynthetic(b[0]) == synthetic && b[0].origin == origin
  }

  lemma StrokeAdded(frames: seq<StrokeFrame>, b: seq<StrokeFrame>, origin: u8, synthetic: bool)
    requires WholeStrokes(frames) && IsStroke(b, origin, synthetic)
    ensures WholeStrokes(frames + b)
    ensures Downs(frames + b, synthetic) == Add(Downs(frames, synthetic), origin, 1)
    ensures Downs(frames + b, !synthetic) == Downs(frames, !synthetic)
  {
    hide IsBlock, IsUp, IsDown, IsSynthetic, Add, Downs, Regular;
    assert |b| > 0 by { BlockNotEmpty(b); }
    DownsBlock(frames, b, synthetic);
    DownsBlock(frames, b, !synthetic);
    RegularAppend(frames, b);
  }

  lemma PairIsStroke(a: StrokeFrame, b: StrokeFrame, origin: u8)
    requires HasFlag(a.flags, DOWN) && !HasFlag(a.flags, UP) && HasFlag(a.flags, SYNTHETIC) && a.origin == origin
    requires HasFlag(b.flags, UP) && !HasFlag(b.flags, DOWN)
    ensures IsStroke([a, b], origin, true)
  {
    hide HasFlag;
  }

  lemma BlockNotEmpty(b: seq<StrokeFrame>)
    requires IsBlock(b)
    ensures |b| > 0
  {
  }

  lemma NothingRecorded()
    ensures FramesOf([]) == [] && Closed([]) && WholeStrokes([])
    ensures Downs([], false) == NONE && Downs([], true) == NONE
  {
  }

  class SiganRecorder {
    const pub: SiganPublisher
    /** Conversion of pixel coordinates to the frame's 32-bit floats. */
    const bits: int -> u32
    var tally: Tallies
    var broken: bool

    ghost function Repr(): set<object> {
      {this, pub, pub.journal, pub.journal.buf} + if pub.sink == null then {} else {pub.sink}
    }

    ghost predicate Valid()
      reads Repr()
    {
      && this as object != pub && this as object != pub.journal && this as object != pub.journal.buf
      && (pub.sink != null ==> this as object != pub.sink)
      && pub.Valid() && (broken ==> pub.journal.failed)
    }

    /** File, publisher and tally agree: only whole strokes are in the journal, all of them recoverable,
        and the tally counts what the frames show. */
    ghost predicate Agrees()
      reads Repr()
    {
      && WholeStrokes(pub.Frames()) && Closed(pub.journal.records)
      && tally.strokes == Downs(pub.Frames(), false) && tally.regionOps == Downs(pub.Frames(), true)
    }

    constructor (sessionId: u64, wallAnchor: u64, sink: Sink?, sound: bool, bits: int -> u32, answer: Answer<Greeting>,
            note: seq<u8>)
      requires sink != null ==> sink.Valid() && !sink.open && sink.past == []
      modifies sink
      ensures Valid() && (!pub.journal.failed ==> Agrees())
      ensures pub.sink == sink && fresh(Repr() - if sink == null then {} else {sink})
      ensures tally == NOTHING && !broken && pub.seqNo == 0
    {
      hide SiganPublisher.Valid, SiganRecorder.Agrees;
      var p := new SiganPublisher(sessionId, wallAnchor, sink, sound);
      pub := p;
      this.bits := bits;
      tally, broken := NOTHING, false;
      new;
      EmptyAgrees();
      if sink != null {
        PumpPipe(answer, note);
      }
    }

    lemma EmptyAgrees()
      requires pub.journal.records == [] && tally == NOTHING
      ensures Agrees()
    {
      hide FramesOf, Downs, Closed, WholeStrokes;
      NothingRecorded();
    }

    /** `SiganRecorder::pump`. */
    method PumpPipe(answer: Answer<Greeting>, note: seq<u8>)
      requires Valid()
      modifies Repr() - {this}
      ensures Valid() && pub.seqNo == old(pub.seqNo) && (old(pub.journal.failed) ==> pub.journal.failed)
      ensures !pub.journal.failed && old(Agrees()) ==> Agrees()
    {
      hide SiganPublisher.Valid, Closed, WholeStrokes, Downs, FramesOf;
      pub.Pump(answer, note);
      if Closed(old(pub.journal.records)) { ClosedWithNote(old(pub.journal.records), pub.journal.records); }
    }

    method CheckJournal()
      modifies this`broken
      ensures broken == (old(broken) || pub.journal.failed)
    {
      if pub.journal.failed { broken := true; }
    }

    /** One stroke point becomes one frame; the source is passed on, never chosen. */
    method OnStrokePoint(src: Source, p: Pen, layerId: u64, brushId: u64, flags: u32) returns (ghost f: StrokeFrame)
      requires Valid() && pub.seqNo + 1 < 0x1_0000_0000_0000_0000
      modifies Repr()
      ensures Valid() && tally == old(tally) && pub.seqNo == old(pub.seqNo) + 1
      ensures f == Stamp(Point(src, p, layerId, brushId, flags), pub.seqNo, p.tMs)
      ensures f.cx == p.x && f.cy == p.y && f.flags == flags && f.origin == src.origin && f.layerId == NarrowId(layerId)
              && f.tMs == p.tMs
      ensures !pub.journal.failed ==> !old(pub.journal.failed) && pub.Frames() == old(pub.Frames()) + [f]
      ensures pub.journal.failed ==> broken
    {
      hide SiganPublisher.Valid, SiganPublisher.Links, SiganPublisher.Starts, SiganPublisher.Frames, Continues;
      var s := Point(src, p, layerId, brushId, flags);
      var r := pub.Publish(s, p.tMs);
      f := Stamp(s, r, p.tMs);
      CheckJournal();
    }

    /** A stroke ends: marker and flush first, then the tally of strokes and changed tiles. */
    method OnStrokeEnd(src: Source, changedTiles: nat)
      requires Valid()
      modifies Repr()
      ensures Valid() && pub.seqNo == old(pub.seqNo)
      ensures tally == old(tally).(strokes := Add(old(tally.strokes), src.origin, 1),
              tiles := Add(old(tally.tiles), src.origin, changedTiles))
      ensures !pub.journal.failed ==>
              !old(pub.journal.failed) && pub.Frames() == old(pub.Frames()) && Closed(pub.journal.records)
      ensures pub.journal.failed ==> broken
    {
      hide SiganPublisher.Valid, SiganPublisher.Links, SiganPublisher.Starts, SiganPublisher.Frames, Continues, Closed;
      pub.EndStroke();
      ClosedByEnd(old(pub.journal.records), pub.seqNo);
      CheckJournal();
      tally := tally.(strokes := Add(tally.strokes, src.origin, 1),
        tiles := Add(tally.tiles, src.origin, changedTiles));
    }

    /** The stroke end and the explanatory note behind a region operation. */
    method EndOperation(note: seq<u8>)
      requires Valid()
      modifies Repr() - {this}
      ensures Valid() && pub.seqNo == old(pub.seqNo)
      ensures !pub.journal.failed ==>
              !old(pub.journal.failed) && pub.Frames() == old(pub.Frames()) && Closed(pub.journal.records)
    {
      hide Tracks, FramesOf, Downs, Numbered, GoodRecords, IsTable, EncodeAll, Header, Closed, Continues, Sink.Valid,
           SiganPublisher.Links, SiganPublisher.Starts, SiganPublisher.Linked, SiganPublisher.Counted;
      pub.EndStroke();
      ClosedByEnd(old(pub.journal.records), pub.seqNo);
      ghost var ended := pub.journal.records;
      var _ := pub.journal.AppendNote(note);
      pub.NoteKeeps(ended);
      if Closed(ended) { ClosedWithNote(ended, pub.journal.records); }
    }

    /** A region operation is a pair of synthetic frames, Down at one corner and Up at the other, and a
        stroke end of its own. An empty area, a broken journal, or one that breaks here is an error, and
        then nothing is tallied. */
    method OnRegionOp(src: Source, op: RegionOp, tMs: u64, note: seq<u8>)
            returns (ok: bool, ghost pair: seq<StrokeFrame>)
      requires Valid() && pub.seqNo + 2 < 0x1_0000_0000_0000_0000
      modifies Repr()
      ensures Valid() && pub.seqNo <= old(pub.seqNo) + 2 && (old(pub.journal.failed) ==> pub.journal.failed)
      ensures op.area.IsEmpty() || old(broken) ==> !ok
      ensures !ok ==> tally == old(tally)
      ensures op.area.IsEmpty() || old(broken) ==>
              pub.Frames() == old(pub.Frames()) && pub.journal.records == old(pub.journal.records)
      ensures ok ==>
              !pub.journal.failed && pub.Frames() == old(pub.Frames()) + pair && IsStroke(pair, src.origin, true)
              && Closed(pub.journal.records)
      ensures ok ==> |pair| == 2 && pair[0].cx == bits(op.area.x) && pair[0].cy == bits(op.area.y)
                     && pair[1].cx == bits(op.area.Right() - 1) && pair[1].cy == bits(op.area.Bottom() - 1)
      ensures ok ==> pair[0].flags == Flags(DOWN, op.eraser, true) && pair[1].flags == Flags(UP, op.eraser, true)
      ensures ok ==> pair[0].layerId == pair[1].layerId == NarrowId(op.layerId) && pair[0].tMs == pair[1].tMs == tMs
      ensures ok ==>
              tally == old(tally).(regionOps := Add(old(tally.regionOps), src.origin, 1),
                tiles := Add(old(tally.tiles), src.origin, op.changedTiles))
      ensures !ok && !op.area.IsEmpty() && !old(broken) ==> pub.journal.failed && broken
    {
      hide Tracks, FramesOf, Downs, Numbered, GoodRecords, IsTable, EncodeAll, Header, Closed, HasFlag, IsStroke, Stamp,
           Point, Add, SiganPublisher.Valid, SiganPublisher.Frames;
      pair := [];
      if op.area.IsEmpty() || broken { return false, pair; }
      var a := OnStrokePoint(src, Pen(bits(op.area.x), bits(op.area.y), 0, 0, 0, 0, 0, tMs), op.layerId, 0,
          Flags(DOWN, op.eraser, true));
      var b := OnStrokePoint(src, Pen(bits(op.area.Right() - 1), bits(op.area.Bottom() - 1), 0, 0, 0, 0, 0, tMs),
          op.layerId, 0, Flags(UP, op.eraser, true));
      pair := [a, b];
      PairIsStroke(a, b, src.origin);
      EndOperation(note);
      CheckJournal();
      if broken { return false, pair; }
      tally := tally.(regionOps := Add(tally.regionOps, src.origin, 1),
        tiles := Add(tally.tiles, src.origin, op.changedTiles));
      ok := true;
    }

    /** The counting part of `buildProofLog`: flush, recover the file, summarise, count. While nothing
        failed, what the file shows is what was tallied. */
    method ProofCounts() returns (r: Option<(Stats, Stats)>)
      requires Valid()
      modifies pub.journal`file, pub.journal`bufLen, pub.journal`failed
      ensures pub.journal.Valid() && (old(pub.journal.failed) ==> pub.journal.failed)
      ensures !pub.journal.failed && old(Agrees()) ==> r == Some((tally.strokes, tally.regionOps))
    {
      hide FramesOf, Downs, Numbered, IsTable, EncodeAll, Header, Closed, WholeStrokes, Tracks, Describes, IsSplit,
           Tally, ScanFile, LastEnd;
      var _ := pub.journal.Flush();
      var scanned := RecoverJournal(pub.journal.table, pub.journal.file);
      if !pub.journal.failed && Closed(pub.journal.records) {
        RecoverWhole(pub.journal.sessionId, pub.journal.wallAnchor, pub.journal.records,
          pub.journal.file + pub.journal.buf[..pub.journal.bufLen]);
        assert pub.journal.buf[..0] == [] && pub.journal.file + [] == pub.journal.file;
      }
      if scanned.None? { return None; }
      ghost var blocks;
      var strokes;
      strokes, blocks := SummarizeStrokes(scanned.value.frames);
      var brush := BrushStrokeStats(strokes);
      var region := RegionOpStats(strokes);
      if WholeStrokes(scanned.value.frames) { WholeStrokesCount(scanned.value.frames, strokes, blocks); }
      r := Some((brush, region));
    }
  }

  lemma WholeStrokesCount(frames: seq<StrokeFrame>, strokes: seq<Summary>, blocks: seq<seq<StrokeFrame>>)
    requires WholeStrokes(frames) && IsSplit(frames, blocks) && Describes(strokes, blocks)
    ensures Tally(strokes, false) == Downs(frames, false) && Tally(strokes, true) == Downs(frames, true)
  {
    LogAgrees(frames, strokes, blocks);
  }

  /** A closed journal recovers completely. */
  lemma RecoverWhole(sessionId: u64, wallAnchor: u64, rs: seq<Record>, data: seq<u8>)
    requires GoodRecords(rs) && data == Header(sessionId, wallAnchor) + EncodeAll(rs) && Closed(rs)
    ensures HeaderOk(data) && Recovered(ScanFile(data)).frames == FramesOf(rs)
  {
    hide EncodeAll, Header, HeaderOk, ScanFile, Whole, FramesOf, LastEnd;
    var n := |data|;
    assert data == (Header(sessionId, wallAnchor) + EncodeAll(rs))[..n];
    RecoverCut(sessionId, wallAnchor, rs, n);
    WholeAll(rs);
    assert rs[..|rs|] == rs;
  }

  /** One stroke on its way into the record; without a recorder every call does nothing. */
  class StrokeEntry {
    const rec: SiganRecorder?
    const src: Source
    const layerId: u64
    const brushId: u64
    const eraser: bool
    var ended: bool

    constructor (rec: SiganRecorder?, src: Source, layerId: u64, brushId: u64, eraser: bool)
      ensures this.rec == rec && this.src == src && this.layerId == layerId && this.brushId == brushId
              && this.eraser == eraser && !ended
    {
      this.rec, this.src, this.layerId, this.brushId, this.eraser, ended := rec, src, layerId, brushId, eraser, false;
    }

    ghost function Reach(): set<object> {
      if rec == null then {} else rec.Repr()
    }

    method Emit(s: Pen, phase: nat) returns (ghost f: StrokeFrame)
      requires phase == DOWN || phase == MOVE || phase == UP
      requires rec != null ==> rec.Valid() && rec.pub.seqNo + 1 < 0x1_0000_0000_0000_0000
      modifies Reach()
      ensures rec != null ==> rec.Valid() && rec.tally == old(rec.tally) && rec.pub.seqNo == old(rec.pub.seqNo) + 1
      ensures rec != null ==>
                f == Stamp(Point(src, s, layerId, brushId, Flags(phase, eraser, false)), rec.pub.seqNo, s.tMs)
      ensures rec != null ==> f.flags == Flags(phase, eraser, false) && f.origin == src.origin
      ensures rec != null && !rec.pub.journal.failed ==>
              !old(rec.pub.journal.failed) && rec.pub.Frames() == old(rec.pub.Frames()) + [f]
    {
      f := Stamp(Point(src, s, layerId, brushId, 0), 0, 0);
      if rec == null { return; }
      f := rec.OnStrokePoint(src, s, layerId, brushId, Flags(phase, eraser, false));
    }

    method Finish(changedTiles: nat)
      requires rec != null ==> rec.Valid() && this !in rec.Repr()
      modifies this`ended, Reach()
      ensures rec != null ==> ended && rec.Valid() && rec.pub.seqNo == old(rec.pub.seqNo)
      ensures rec != null && old(ended) ==>
              rec.tally == old(rec.tally) && rec.pub.journal.failed == old(rec.pub.journal.failed)
      ensures rec != null && !old(ended) ==>
              rec.tally == old(rec.tally).(strokes := Add(old(rec.tally.strokes), src.origin, 1),
                tiles := Add(old(rec.tally.tiles), src.origin, changedTiles))
      ensures rec != null && !old(ended) && !rec.pub.journal.failed ==>
                !old(rec.pub.journal.failed) && rec.pub.Frames() == old(rec.pub.Frames())
                  && Closed(rec.pub.journal.records)
    {
      if rec == null || ended { return; }
      ended := true;
      rec.OnStrokeEnd(src, changedTiles);
    }
  }

  /** A brush stroke from pen down to pen up, and its end. */
  method PaintStroke(rec: SiganRecorder, src: Source, layerId: u64, brushId: u64, eraser: bool, pens: seq<Pen>,
          changedTiles: nat)
    requires rec.Valid() && |pens| >= 2 && rec.pub.seqNo + |pens| < 0x1_0000_0000_0000_0000
    modifies rec.Repr()
    ensures rec.Valid() && rec.pub.seqNo == old(rec.pub.seqNo) + |pens|
            && (old(rec.pub.journal.failed) ==> rec.pub.journal.failed)
    ensures !rec.pub.journal.failed && old(rec.Agrees()) ==> rec.Agrees()
    ensures rec.tally == old(rec.tally).(strokes := Add(old(rec.tally.strokes), src.origin, 1),
            tiles := Add(old(rec.tally.tiles), src.origin, changedTiles))
  {
    hide SiganPublisher.Valid, SiganPublisher.Frames, Closed, WholeStrokes, Downs, Add, IsUp, IsDown, IsSynthetic,
         HasFlag, Flags;
    var e := new StrokeEntry(rec, src, layerId, brushId, eraser);
    ghost var frames := rec.pub.Frames();
    var f := e.Emit(pens[0], DOWN);
    ghost var b := [f];
    FlagsOf(f, DOWN, eraser);
    var i := 1;
    while i < |pens| - 1
      invariant 1 <= i <= |pens| - 1 && i == |b| && rec.Valid() && !e.ended
      invariant rec.pub.seqNo == old(rec.pub.seqNo) + i && rec.tally == old(rec.tally)
      invariant old(rec.pub.journal.failed) ==> rec.pub.journal.failed
      invariant IsDown(b[0]) && !IsSynthetic(b[0]) && b[0].origin == src.origin && IsBlock(b) && !IsUp(b[i - 1])
      invariant !rec.pub.journal.failed ==> rec.pub.Frames() == frames + b
    {
      f := e.Emit(pens[i], MOVE);
      FlagsOf(f, MOVE, eraser);
      assert frames + (b + [f]) == (frames + b) + [f];
      b := b + [f];
      i := i + 1;
    }
    f := e.Emit(pens[i], UP);
    FlagsOf(f, UP, eraser);
    assert frames + (b + [f]) == (frames + b) + [f];
    b := b + [f];
    e.Finish(changedTiles);
    if old(rec.Agrees()) { StrokeAdded(frames, b, src.origin, false); }
  }

  lemma FlagsOf(f: StrokeFrame, phase: nat, eraser: bool)
    requires phase == DOWN || phase == MOVE || phase == UP
    requires f.flags == Flags(phase, eraser, false)
    ensures IsDown(f) == (phase == DOWN) && IsUp(f) == (phase == UP) && !IsSynthetic(f)
  {
  }

  /** `recordRegionOp`: an operation that touched nothing is not recorded. */
  method RecordRegionOp(rec: SiganRecorder, src: Source, op: RegionOp, tMs: u64, note: seq<u8>) returns (ok: bool)
    requires rec.Valid() && rec.pub.seqNo + 2 < 0x1_0000_0000_0000_0000
    modifies rec.Repr()
    ensures rec.Valid() && rec.pub.seqNo <= old(rec.pub.seqNo) + 2
            && (old(rec.pub.journal.failed) ==> rec.pub.journal.failed)
    ensures !rec.pub.journal.failed && old(rec.Agrees()) ==> rec.Agrees()
    ensures op.area.IsEmpty() ==> ok && rec.pub.journal.records == old(rec.pub.journal.records)
    ensures rec.tally == if !ok || op.area.IsEmpty() then old(rec.tally)
                         else old(rec.tally).(regionOps := Add(old(rec.tally.regionOps), src.origin, 1),
                           tiles := Add(old(rec.tally.tiles), src.origin, op.changedTiles))
    ensures !ok ==> old(rec.broken) || rec.pub.journal.failed
  {
    hide SiganPublisher.Valid, SiganPublisher.Frames, Closed, WholeStrokes, Downs, Add, IsStroke, FramesOf;
    if op.area.IsEmpty() { return true; }
    ghost var frames, was := rec.pub.Frames(), rec.pub.seqNo;
    ghost var pair;
    ok, pair := rec.OnRegionOp(src, op, tMs, note);
    if old(rec.Agrees()) && ok { StrokeAdded(frames, pair, src.origin, true); }
  }

  /** What happens to a document while it is recorded. */
  datatype Act =
    | Stroke(src: Source, layerId: u64, brushId: u64, eraser: bool, pens: seq<Pen>, changedTiles: nat)
    | Region(src: Source, op: RegionOp, tMs: u64, note: seq<u8>)
    | Pump(answer: Answer<Greeting>, note: seq<u8>)

  ghost predicate Sensible(acts: seq<Act>) {
    forall i :: 0 <= i < |acts| && acts[i].Stroke? ==> |acts[i].pens| >= 2
  }

  /** How many frames the acts need at most. */
  function Needed(acts: seq<Act>): nat {
    if |acts| == 0 then 0
    else
      var first :=
        match acts[0] case Stroke(_, _, _, _, pens, _) => |pens| case Region(_, _, _, _) => 2 case Pump(_, _) => 0;
      first + Needed(acts[1..])
  }

  /** Over any run of strokes, region operations and pumps, with a peer that comes and goes: while the
      journal did not fail, file, publisher and tally agree on every count per origin. */
  method RunSession(rec: SiganRecorder, acts: seq<Act>)
    requires rec.Valid() && Sensible(acts) && rec.pub.seqNo + Needed(acts) < 0x1_0000_0000_0000_0000
    requires !rec.pub.journal.failed ==> rec.Agrees()
    modifies rec.Repr()
    ensures rec.Valid() && (!rec.pub.journal.failed ==> rec.Agrees())
    ensures !rec.pub.journal.failed ==> rec.pub.origins == rec.tally.strokes && rec.pub.regionOps == rec.tally.regionOps
  {
    var i := 0;
    while i < |acts|
      invariant 0 <= i <= |acts| && rec.Valid() && rec.pub.seqNo + Needed(acts[i..]) < 0x1_0000_0000_0000_0000
      invariant !rec.pub.journal.failed ==> rec.Agrees()
    {
      hide SiganPublisher.Valid, SiganPublisher.Frames, Closed, WholeStrokes, Downs, Add, FramesOf;
      assert acts[i..][0] == acts[i] && acts[i..][1..] == acts[i + 1..];
      match acts[i] {
      case Stroke(src, layerId, brushId, eraser, pens, changedTiles) =>
        PaintStroke(rec, src, layerId, brushId, eraser, pens, changedTiles);
      case Region(src, op, tMs, note) =>
        var _ := RecordRegionOp(rec, src, op, tMs, note);
      case Pump(answer, note) =>
        rec.PumpPipe(answer, note);
      }
      i := i + 1;
    }
  }

  // ---- the factory ------------------------------------------------------------------------------------

  /** Adds a tally slot by slot, as `retire` and `totalTally` do. */
  method Merge(a: Tallies, t: Tallies) returns (r: Tallies)
    ensures r == Plus(a, t)
  {
    r := a;
    var i := 0;
    while i < SLOTS
      invariant 0 <= i <= SLOTS
      invariant forall k :: 0 <= k < SLOTS ==> r.strokes[k] == a.strokes[k] + if k < i then t.strokes[k] else 0
      invariant forall k :: 0 <= k < SLOTS ==> r.regionOps[k] == a.regionOps[k] + if k < i then t.regionOps[k] else 0
      invariant forall k :: 0 <= k < SLOTS ==> r.tiles[k] == a.tiles[k] + if k < i then t.tiles[k] else 0
    {
      r := Tallies(Add(r.strokes, i, t.strokes[i]), Add(r.regionOps, i, t.regionOps[i]),
        r.tiles[i := r.tiles[i] + t.tiles[i]]);
      i := i + 1;
    }
  }

  /** The recorders' tallies together. */
  ghost function Together(live: seq<SiganRecorder>): Tallies
    reads live
  {
    if |live| == 0 then NOTHING else Plus(Together(live[..|live| - 1]), live[|live| - 1].tally)
  }

  lemma PlusLaws(a: Tallies, b: Tallies, c: Tallies)
    ensures Plus(a, b) == Plus(b, a) && Plus(Plus(a, b), c) == Plus(a, Plus(b, c)) && Plus(a, NOTHING) == a
  {
  }

  /** Taking one recorder out takes out its tally. */
  lemma {:induction false} TogetherWithout(live: seq<SiganRecorder>, i: nat)
    requires i < |live|
    ensures Together(live) == Plus(live[i].tally, Together(live[..i] + live[i + 1..]))
  {
    hide Plus;
    var n := |live| - 1;
    var rest := live[..i] + live[i + 1..];
    if i == n {
      assert rest == live[..n];
      PlusLaws(Together(rest), live[n].tally, NOTHING);
    } else {
      TogetherWithout(live[..n], i);
      assert live[..n][..i] + live[..n][i + 1..] == rest[..n - 1] && rest[n - 1] == live[n];
      PlusLaws(live[i].tally, Together(rest[..n - 1]), live[n].tally);
    }
  }

  class Factory {
    var live: seq<SiganRecorder>
    var closed: Tallies

    constructor ()
      ensures live == [] && closed == NOTHING
    {
      live, closed := [], NOTHING;
    }

    /** Everything ever recorded through this factory. */
    ghost function Total(): Tallies
      reads this, live
    {
      Plus(closed, Together(live))
    }

    /** `openForDocument`: a new recorder starts from nothing. */
    method Adopt(r: SiganRecorder)
      requires r.tally == NOTHING
      modifies this`live
      ensures live == old(live) + [r] && Total() == old(Total())
    {
      hide Plus;
      live := live + [r];
      assert live[..|live| - 1] == old(live);
      PlusLaws(Together(old(live)), NOTHING, NOTHING);
    }

    /** A recorder that goes away leaves its numbers behind. One that was never adopted changes nothing. */
    method Retire(r: SiganRecorder)
      modifies this
      ensures Total() == old(Total())
      ensures r !in old(live) ==> live == old(live) && closed == old(closed)
      ensures r in old(live) ==> |live| == |old(live)| - 1 && multiset(live) + multiset{r} == multiset(old(live))
    {
      hide Plus;
      var i := 0;
      while i < |live| && live[i] != r
        invariant 0 <= i <= |live| && r !in live[..i]
      {
        i := i + 1;
      }
      if i == |live| { return; }
      TogetherWithout(live, i);
      PlusLaws(closed, r.tally, Together(live[..i] + live[i + 1..]));
      closed := Merge(closed, r.tally);
      assert live == live[..i] + [r] + live[i + 1..];
      live := live[..i] + live[i + 1..];
    }

    method TotalTally() returns (out: Tallies)
      ensures out == Total()
    {
      hide Plus;
      out := closed;
      PlusLaws(closed, NOTHING, NOTHING);
      var i := 0;
      while i < |live|
        invariant 0 <= i <= |live| && out == Plus(closed, Together(live[..i]))
      {
        assert live[..i + 1][..i] == live[..i];
        PlusLaws(closed, Together(live[..i]), live[i].tally);
        out := Merge(out, live[i].tally);
        i := i + 1;
      }
      assert live[..i] == live;
    }
  }
}
