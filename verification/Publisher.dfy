/** The evidence publisher (sigan/src/publisher.cpp): journal first, then the pipe; what the pipe does
    not take is resent, in order, from the journal. */
module Publisher {
  import opened Bytes
  import opened Crc
  import opened Frame
  import opened Journal
  import opened JournalWriter
  import opened PipeSink
  import opened Delivery
  import opened Origin

  /** What a stroke point carries besides sequence number and time. */
  datatype Sample = Sample(
    cx: u32, cy: u32, pressure: u32, tiltX: u32, tiltY: u32, rotation: u32, velocity: u32,
    layerId: u64, brushId: u64, flags: u32, origin: u8, agentId: u32)

  /** The part of the peer's greeting the publisher acts on. */
  datatype Greeting = Greeting(resumeFromSeq: nat, capLayer: bool, capBrush: bool)

  function NarrowId(id: u64): u32 { id % 0x1_0000_0000 }

  /** The journal holds exactly the frames 1 to `n`, in order. */
  ghost predicate Numbered(frames: seq<StrokeFrame>, n: nat) {
    |frames| == n && forall i :: 0 <= i < n ==> frames[i].seqNo == i + 1
  }

  /** Resending after `k` means the tail of the journal. */
  lemma {:induction false} AfterIsTail(frames: seq<StrokeFrame>, from: nat, k: u64)
    requires forall i :: 0 <= i < |frames| ==> frames[i].seqNo == from + i + 1
    requires from <= k <= from + |frames|
    ensures After(frames, k) == frames[k - from..]
  {
    if |frames| > 0 {
      if k == from {
        AllAfter(frames, from, k);
      } else {
        AfterIsTail(frames[1..], from + 1, k);
      }
    }
  }

  lemma {:induction false} AllAfter(frames: seq<StrokeFrame>, from: nat, k: u64)
    requires (forall i :: 0 <= i < |frames| ==> frames[i].seqNo == from + i + 1) && k <= from
    ensures After(frames, k) == frames
  {
    if |frames| > 0 { AllAfter(frames[1..], from + 1, k); }
  }

  lemma Pending(frames: seq<StrokeFrame>, n: nat, k: u64)
    requires Numbered(frames, n) && k <= n
    ensures |frames| == n && After(frames, k) == frames[k..]
  {
    AfterIsTail(frames, 0, k);
  }

  lemma FramesAppend(rs: seq<Record>, r: Record)
    ensures FramesOf(rs + [r]) == FramesOf(rs) + if r.tag == TAG_FRAME && !BadFrame(r) then [Decode(r.payload)] else []
  {
    hide Decode;
    assert (rs + [r])[..|rs|] == rs;
  }

  /** What the journal stores for one published point. */
  function Stamp(s: Sample, seqNo: u64, tMs: u64): StrokeFrame {
    StrokeFrame(seqNo, tMs, s.cx, s.cy, s.pressure, s.tiltX, s.tiltY, s.rotation, s.velocity,
                NarrowId(s.layerId), NarrowId(s.brushId), s.flags, s.origin, s.agentId)
  }

  /** Where sending goes on after a greeting: never later than before, and no later than the peer asks. */
  function ResumePoint(sentSeq: u64, greeting: Answer<Greeting>): u64 {
    if greeting.Answered? && greeting.value.resumeFromSeq > 0 && greeting.value.resumeFromSeq - 1 < sentSeq
    then greeting.value.resumeFromSeq - 1 else sentSeq
  }

  ghost predicate AllCarry(links: seq<Link>, starts: seq<nat>, journal: seq<StrokeFrame>)
    requires |links| == |starts|
  {
    forall i :: 0 <= i < |links| ==> Carries(links[i], starts[i], journal)
  }

  /** At most a note was added. */
  ghost predicate Noted(before: seq<Record>, after: seq<Record>) {
    after == before || exists p :: after == before + [Record(TAG_NOTE, p)]
  }

  /** What holds between the connections so far and the journal. */
  ghost predicate Tracks(past: seq<Link>, starts: seq<nat>, open: bool, writes: seq<seq<u8>>, start: nat,
                         sentSeq: nat, frames: seq<StrokeFrame>)
  {
    && |past| == |starts| && AllCarry(past, starts, frames)
    && (open ==>
          && 1 <= start && start - 1 + |writes| == sentSeq
          && Carries(Link(writes, [], []), start, frames))
  }

  lemma TracksGrow(past: seq<Link>, starts: seq<nat>, open: bool, writes: seq<seq<u8>>, start: nat,
                   sentSeq: nat, frames: seq<StrokeFrame>, f: StrokeFrame)
    requires Tracks(past, starts, open, writes, start, sentSeq, frames)
    ensures Tracks(past, starts, open, writes, start, sentSeq, frames + [f])
  {
    hide IsWireFrame, Held, Resumed;
    forall i | 0 <= i < |past| ensures Carries(past[i], starts[i], frames + [f]) {
      assert Carries(past[i], starts[i], frames);
    }
  }

  /** A whole write of the next journal frame extends the open connection by one. */
  lemma TracksSent(past: seq<Link>, starts: seq<nat>, writes: seq<seq<u8>>, start: nat,
                   sentSeq: nat, frames: seq<StrokeFrame>, w: StrokeFrame)
    requires Tracks(past, starts, true, writes, start, sentSeq, frames)
    requires sentSeq < |frames| && Blanked(w, frames[sentSeq])
    ensures Tracks(past, starts, true, writes + [Encode(w)], start, sentSeq + 1, frames)
  {
    hide Encode, Decode, Blanked, Held, Resumed, AllCarry;
    DecodeEncode(w);
    assert IsWireFrame(Encode(w), frames[sentSeq]);
    var ws := writes + [Encode(w)];
    forall k | 0 <= k < |ws| ensures IsWireFrame(ws[k], frames[start - 1 + k]) {
      if k < |writes| { assert ws[k] == writes[k]; }
    }
  }

  /** A connection that ends joins the past. */
  lemma TracksClosed(past: seq<Link>, starts: seq<nat>, l: Link, start: nat,
                     sentSeq: nat, frames: seq<StrokeFrame>)
    requires Tracks(past, starts, true, l.writes, start, sentSeq, frames)
    requires l.torn == [] || |l.torn| == FRAME_SIZE
    ensures Tracks(past + [l], starts + [start], false, [], start, sentSeq, frames)
  {
    hide IsWireFrame, Held;
    assert Carries(l, start, frames);
  }

  /** A connection may start anywhere up to the end of the journal. */
  lemma TracksOpened(past: seq<Link>, starts: seq<nat>, start: nat, sentSeq: nat, sentSeq': nat,
                     frames: seq<StrokeFrame>)
    requires Tracks(past, starts, false, [], start, sentSeq, frames) && sentSeq' <= |frames|
    ensures Tracks(past, starts, true, [], sentSeq' + 1, sentSeq', frames)
  {
  }

  /** The connections are those there were; on the last one `grown` more writes were accepted. */
  ghost predicate Continues(links0: seq<Link>, starts0: seq<nat>, links: seq<Link>, starts: seq<nat>, grown: int) {
    && |links| == |links0| && starts == starts0
    && if |links| == 0 then grown == 0
       else
         var n := |links| - 1;
         && links[..n] == links0[..n] && links0[n].writes <= links[n].writes
         && |links[n].writes| == |links0[n].writes| + grown
  }

  /** There is one more connection, which starts at `start` and accepted `grown` writes so far. */
  ghost predicate Resumes(links0: seq<Link>, starts0: seq<nat>, links: seq<Link>, starts: seq<nat>, start: nat,
                          grown: int)
  {
    && |links| == |links0| + 1 && links[..|links0|] == links0 && starts == starts0 + [start]
    && |links[|links0|].writes| == grown
  }

  lemma ContinuesSelf(links: seq<Link>, starts: seq<nat>)
    ensures Continues(links, starts, links, starts, 0)
  {
  }

  lemma ContinuesBoth(l0: seq<Link>, s0: seq<nat>, l1: seq<Link>, s1: seq<nat>, l2: seq<Link>, s2: seq<nat>,
                      g: int, h: int)
    requires Continues(l0, s0, l1, s1, g) && Continues(l1, s1, l2, s2, h)
    ensures Continues(l0, s0, l2, s2, g + h)
  {
  }

  lemma ResumesOn(l0: seq<Link>, s0: seq<nat>, l1: seq<Link>, s1: seq<nat>, l2: seq<Link>, s2: seq<nat>,
                  start: nat, g: int, h: int)
    requires Resumes(l0, s0, l1, s1, start, g) && Continues(l1, s1, l2, s2, h)
    ensures Resumes(l0, s0, l2, s2, start, g + h)
  {
  }

  lemma LastLink(past: seq<Link>, starts: seq<nat>, l0: Link, l: Link, start: nat, grown: int)
    requires |past| == |starts| && l0.writes <= l.writes && |l.writes| == |l0.writes| + grown
    ensures Continues(past + [l0], starts + [start], past + [l], starts + [start], grown)
  {
    assert (past + [l0])[..|past|] == past == (past + [l])[..|past|];
  }

  class SiganPublisher {
    const journal: Writer
    const sink: Sink?
    var seqNo: u64
    var sentSeq: u64
    var capLayer: bool
    var capBrush: bool
    var published: nat
    var sent: nat
    var spooled: nat
    var resent: nat
    var reconnects: nat
    var idTruncations: nat
    var origins: Stats
    var regionOps: Stats
    /** First sequence number of each earlier connection, and of the current one. */
    ghost var starts: seq<nat>
    ghost var start: nat
    /** Frames rolled back by reconnecting peers. */
    ghost var rewound: nat

    ghost predicate Separate()
    {
      && (sink != null ==> sink as object != journal && sink as object != journal.buf && sink as object != this)
      && journal.buf as object != this && journal as object != this
    }

    /** All connections so far, the open one last. */
    ghost function Links(): seq<Link>
      reads sink
    {
      if sink == null then []
      else sink.past + if sink.open then [Link(sink.writes, [], sink.wire)] else []
    }

    ghost function Starts(): seq<nat>
      reads this`starts, this`start, sink
    {
      if sink == null then []
      else starts + if sink.open then [start] else []
    }

    /** Will the next pump get a connection, and will that outlive the greeting? */
    ghost predicate Connects()
      reads sink
    {
      sink != null && !sink.open && sink.kernel.accepts(sink.tick)
    }

    ghost predicate Reaches()
      reads sink
    {
      Connects() && sink.kernel.hands(sink.tick + 1) != Broken
    }

    /** What the next pump hears if the peer answers so. */
    ghost function Hears(answer: Answer<Greeting>): Answer<Greeting>
      reads sink
    {
      if Connects() && sink.kernel.hands(sink.tick + 1) == Shaken then answer else Silent
    }

    ghost function Frames(): seq<StrokeFrame>
      reads journal
    {
      FramesOf(journal.records)
    }

    /** The sink's side of the invariant, for a journal holding `frames`. */
    ghost predicate Linked(frames: seq<StrokeFrame>)
      reads this`starts, this`start, this`sentSeq, sink
    {
      sink != null ==> Tracks(sink.past, starts, sink.open, sink.writes, start, sentSeq, frames)
    }

    /** The counters agree with the journal. */
    ghost predicate Counted(frames: seq<StrokeFrame>)
      reads this`seqNo, this`sentSeq, this`rewound, this`sent, this`origins, this`regionOps
    {
      && Numbered(frames, seqNo) && sentSeq <= seqNo
      && sentSeq + rewound == sent
      && origins == Downs(frames, false)
      && regionOps == Downs(frames, true)
    }

    ghost predicate Valid()
      reads this, journal, journal.buf, sink
    {
      && Separate() && journal.Valid() && published == seqNo
      && (sink != null ==> sink.Valid() && |sink.past| == |starts|)
      && (!journal.failed ==> Linked(Frames()) && Counted(Frames()) && spooled == seqNo - sentSeq)
    }

    constructor (sessionId: u64, wallAnchor: u64, sink: Sink?, sound: bool)
      requires sink != null ==> sink.Valid() && !sink.open && sink.past == []
      ensures Valid() && !journal.failed && seqNo == 0 && sentSeq == 0 && rewound == 0
      ensures reconnects == 0 && this.sink == sink && journal.sound == sound
      ensures fresh(journal) && fresh(journal.buf) && journal.records == []
    {
      journal := new Writer(sessionId, wallAnchor, sound);
      this.sink := sink;
      seqNo, sentSeq, capLayer, capBrush := 0, 0, true, true;
      published, sent, spooled, resent, reconnects, idTruncations := 0, 0, 0, 0, 0, 0;
      origins, regionOps := NONE, NONE;
      starts, start, rewound := [], 1, 0;
    }

    /** `applyCaps`: unknown abilities blank a field, they never drop a frame. */
    function ApplyCaps(f: StrokeFrame): (w: StrokeFrame)
      reads this
      ensures Blanked(w, f)
      ensures w.layerId == (if capLayer then f.layerId else 0) && w.brushId == if capBrush then f.brushId else 0
    {
      f.(layerId := if capLayer then f.layerId else 0, brushId := if capBrush then f.brushId else 0)
    }

    /** Writes one frame to the open sink. On Ok the next sequence number is the peer's business; on
        anything else nothing of it counts. */
    method Send(f: StrokeFrame) returns (ok: bool)
      requires Separate() && sink != null && sink.Valid() && sink.open && |sink.past| == |starts|
      requires !journal.failed ==>
               Linked(Frames()) && sentSeq < |Frames()| && f == Frames()[sentSeq] && f.seqNo == sentSeq + 1
      modifies this`starts, this`sentSeq, this`sent, sink
      ensures sink.Valid() && |sink.past| == |starts|
      ensures !journal.failed ==> Linked(Frames())
      ensures ok ==> sink.open && sentSeq == f.seqNo && sent == old(sent) + 1
      ensures !ok ==> sentSeq == old(sentSeq) && sent == old(sent)
      ensures sink.refusals >= old(sink.refusals) && (sink.refusals == old(sink.refusals) ==> ok && sink.residual == [])
      ensures Continues(old(Links()), old(Starts()), Links(), Starts(), sent - old(sent))
      ensures sink.tick >= old(sink.tick) && (sink.kernel.Calm(old(sink.tick)) ==> sink.refusals == old(sink.refusals))
      ensures old(sink.residualHead == |sink.residual|) && FRAME_SIZE <= sink.residualLimit
              && sink.kernel.takes(old(sink.tick)) == Part(0) ==>
                ok && sink.residualHead < |sink.residual| && sink.tick == old(sink.tick) + 1
                && sink.wire == old(sink.wire)
    {
      hide Encode, Tracks, FramesOf, Continues, Kernel.Calm, Sink.Valid;
      var w := ApplyCaps(f);
      ghost var frames := Frames();
      var status := sink.Write(Encode(w));
      if !sink.open {
        starts := starts + [start];
        ghost var l := sink.past[|old(sink.past)|];
        assert sink.past == old(sink.past) + [l];
        sink.NothingOpen();
        if !journal.failed { TracksClosed(old(sink.past), old(starts), l, start, sentSeq, frames); }
      }
      ok := status == Ok;
      if ok {
        if !journal.failed { TracksSent(sink.past, starts, old(sink.writes), start, sentSeq, frames, w); }
        sentSeq := f.seqNo;
        sent := sent + 1;
      }
      ghost var l := if sink.open then Link(sink.writes, [], sink.wire) else sink.past[|old(sink.past)|];
      assert Links() == old(sink.past) + [l] && Starts() == old(starts) + [start];
      LastLink(old(sink.past), old(starts), Link(old(sink.writes), [], old(sink.wire)), l, start, sent - old(sent));
    }

    /** The ghost record of a connection that `sink` just gave up. */
    ghost method Settle(past: seq<Link>, writes: seq<seq<u8>>, frames: seq<StrokeFrame>)
      requires sink != null && !sink.open && sink.Valid() && |past| == |starts|
      requires |sink.past| == |past| + 1 && sink.past[..|past|] == past
      requires sink.past[|past|].writes == writes && sink.past[|past|].torn == []
      modifies this`starts
      ensures |sink.past| == |starts| && starts == old(starts) + [start]
      ensures Tracks(past, old(starts), true, writes, start, sentSeq, frames) ==> Linked(frames)
    {
      hide Tracks;
      starts := starts + [start];
      var l := sink.past[|past|];
      assert sink.past == past + [l];
      if Tracks(past, old(starts), true, writes, start, sentSeq, frames) {
        TracksClosed(past, old(starts), l, start, sentSeq, frames);
      }
    }

    /** Numbers the point, counts it by origin and journals it. */
    method Enter(s: Sample, tMs: u64) returns (f: StrokeFrame)
      requires Valid() && seqNo + 1 < 0x1_0000_0000_0000_0000
      modifies this`seqNo, this`idTruncations, this`origins, this`regionOps, this`published, journal, journal.buf
      ensures seqNo == old(seqNo) + 1 && f == Stamp(s, seqNo, tMs)
      ensures idTruncations == old(idTruncations) + if NarrowId(s.layerId) != s.layerId
              || NarrowId(s.brushId) != s.brushId then 1 else 0
      ensures Separate() && journal.Valid() && published == seqNo
      ensures !journal.failed ==>
              !old(journal.failed) && Frames() == old(Frames()) + [f] && Linked(Frames()) && Numbered(Frames(), seqNo)
      ensures !journal.failed ==> origins == Downs(Frames(), false) && regionOps == Downs(Frames(), true)
      ensures journal.sound && !old(journal.failed) ==> !journal.failed
    {
      hide Encode, Tracks, FramesOf, Downs, NarrowId, GoodRecords, IsTable, EncodeAll, Header, Add, HasFlag,
           Linked, Numbered;
      seqNo := seqNo + 1;
      f := Stamp(s, seqNo, tMs);
      if NarrowId(s.layerId) != s.layerId || NarrowId(s.brushId) != s.brushId { idTruncations := idTruncations + 1; }
      if HasFlag(f.flags, DOWN) {
        if HasFlag(f.flags, SYNTHETIC) {
          regionOps := Add(regionOps, f.origin, 1);
        } else {
          origins := Add(origins, f.origin, 1);
        }
      }
      var stored := journal.AppendFrame(f);
      published := published + 1;
      if stored {
        JournalGrew(old(journal.records), old(Frames()), f);
        NumberedMore(old(Frames()), f, old(seqNo));
      }
    }

    /** Numbers the point, journals it, and only then offers it to the pipe, and only if it is the
        peer's next frame. Nothing is dropped: the point is in the journal whatever the pipe does. */
    method Publish(s: Sample, tMs: u64) returns (r: u64)
      requires Valid() && seqNo + 1 < 0x1_0000_0000_0000_0000
      modifies this, journal, journal.buf, sink
      ensures Valid() && r == seqNo == old(seqNo) + 1
      ensures !journal.failed ==> !old(journal.failed) && Frames() == old(Frames()) + [Stamp(s, r, tMs)]
      ensures idTruncations == old(idTruncations) + if NarrowId(s.layerId) != s.layerId
              || NarrowId(s.brushId) != s.brushId then 1 else 0
      ensures capLayer == old(capLayer) && capBrush == old(capBrush)
      ensures resent == old(resent) && reconnects == old(reconnects) && rewound == old(rewound)
      ensures Continues(old(Links()), old(Starts()), Links(), Starts(), sent - old(sent))
      ensures journal.sound && !old(journal.failed) ==> !journal.failed
      ensures sink != null ==> sink.tick >= old(sink.tick)
      ensures sink != null && old(!sink.open) ==> !sink.open && sentSeq == old(sentSeq)
      ensures !journal.failed && sink != null && old(sink.open) && sink.refusals == old(sink.refusals) ==>
                old(sentSeq == seqNo) ==> sentSeq == seqNo
      ensures !journal.failed && sink != null
              && old(sink.open && sink.residualHead == |sink.residual| && sentSeq == seqNo)
              && FRAME_SIZE <= sink.residualLimit && sink.kernel.takes(old(sink.tick)) == Part(0) ==>
                && sink.open && sentSeq == seqNo && sink.residualHead < |sink.residual|
                && sink.tick == old(sink.tick) + 1 && sink.wire == old(sink.wire)
    {
      hide Tracks, FramesOf, Downs, NarrowId, GoodRecords, IsTable, EncodeAll, Header,
           Continues, Links, Starts, Linked;
      var f := Enter(s, tMs);
      Forward(f);
      r := seqNo;
    }

    /** Offers the newest frame to the pipe if it is the peer's next. */
    method Forward(f: StrokeFrame)
      requires Separate() && journal.Valid() && published == seqNo
               && (sink != null ==> sink.Valid() && |sink.past| == |starts|)
      requires !journal.failed ==>
                 && Linked(Frames()) && Counted(Frames()) && sentSeq < seqNo
                 && f.seqNo == seqNo && f == Frames()[seqNo - 1]
      modifies this`starts, this`sentSeq, this`sent, this`spooled, sink
      ensures Valid()
      ensures Continues(old(Links()), old(Starts()), Links(), Starts(), sent - old(sent))
      ensures sink != null ==> sink.tick >= old(sink.tick)
      ensures sink != null && old(!sink.open) ==> !sink.open && sentSeq == old(sentSeq)
      ensures !journal.failed && sink != null && old(sink.open) && sink.refusals == old(sink.refusals) ==>
                old(sentSeq) + 1 == seqNo ==> sentSeq == seqNo
      ensures !journal.failed && sink != null
              && old(sink.open && sink.residualHead == |sink.residual| && sentSeq + 1 == seqNo)
              && FRAME_SIZE <= sink.residualLimit && sink.kernel.takes(old(sink.tick)) == Part(0) ==>
                && sink.open && sentSeq == seqNo && sink.residualHead < |sink.residual|
                && sink.tick == old(sink.tick) + 1 && sink.wire == old(sink.wire)
    {
      hide Tracks, FramesOf, Downs, Numbered, GoodRecords, IsTable, EncodeAll, Header, Writer.Valid, Sink.Valid,
           Continues, Links, Starts, Linked;
      ContinuesSelf(Links(), Starts());
      if sink != null && sink.open && sentSeq + 1 == seqNo {
        NumberedLength(Frames(), seqNo);
        var _ := Send(f);
      }
      spooled := (seqNo - sentSeq) % 0x1_0000_0000_0000_0000;
    }

    lemma NumberedMore(frames: seq<StrokeFrame>, f: StrokeFrame, n: nat)
      requires f.seqNo == n + 1
      ensures Numbered(frames, n) ==> Numbered(frames + [f], n + 1)
    {
    }

    lemma NumberedLength(frames: seq<StrokeFrame>, n: nat)
      ensures Numbered(frames, n) ==> |frames| == n
    {
    }

    lemma JournalGrew(records: seq<Record>, frames: seq<StrokeFrame>, f: StrokeFrame)
      requires journal.records == records + [Record(TAG_FRAME, Encode(f))] && frames == FramesOf(records)
      ensures Frames() == frames + [f]
      ensures Linked(frames) ==> Linked(frames + [f])
      ensures Downs(frames + [f], false) == if HasFlag(f.flags, DOWN) && !HasFlag(f.flags, SYNTHETIC)
              then Add(Downs(frames, false), f.origin, 1) else Downs(frames, false)
      ensures Downs(frames + [f], true) == if HasFlag(f.flags, DOWN) && HasFlag(f.flags, SYNTHETIC)
              then Add(Downs(frames, true), f.origin, 1) else Downs(frames, true)
    {
      hide Encode, Decode, Tracks, FramesOf, Downs;
      DecodeEncode(f);
      FramesAppend(records, Record(TAG_FRAME, Encode(f)));
      DownsAppend(frames, f, false);
      DownsAppend(frames, f, true);
      if Linked(frames) && sink != null {
        TracksGrow(sink.past, starts, sink.open, sink.writes, start, sentSeq, frames, f);
      }
    }

    /** The end of a stroke: a marker in the journal, which then holds nothing but whole strokes. */
    method EndStroke()
      requires Valid()
      modifies this, journal, journal.buf, sink
      ensures Valid() && seqNo == old(seqNo) && sentSeq == old(sentSeq)
      ensures Continues(old(Links()), old(Starts()), Links(), Starts(), 0)
      ensures journal.sound && !old(journal.failed) ==> !journal.failed
      ensures sink != null ==> sink.tick >= old(sink.tick)
      ensures sink != null && old(!sink.open) ==> !sink.open && sentSeq == old(sentSeq)
      ensures sink != null && old(sink.open && sink.residualHead < |sink.residual|)
              && sink.kernel.takes(old(sink.tick)) == Gone ==>
                && !sink.open && sink.tick == old(sink.tick) + 1
                && |Links()| > 0 && Links()[|Links()| - 1].wire == old(sink.wire)
      ensures capLayer == old(capLayer) && capBrush == old(capBrush) && sent == old(sent) && resent == old(resent)
              && reconnects == old(reconnects)
      ensures rewound == old(rewound)
      ensures !journal.failed ==> !old(journal.failed) && journal.bufLen == 0 && Frames() == old(Frames())
      ensures !journal.failed ==> journal.records == old(journal.records) + [Record(TAG_STROKE_END, PutU64(seqNo))]
    {
      hide Tracks, FramesOf, Downs, Numbered, GoodRecords, IsTable, EncodeAll, Header, PutU64;
      ghost var frames := Frames();
      var marked := journal.MarkStrokeEnd(seqNo);
      if marked { FramesAppend(old(journal.records), Record(TAG_STROKE_END, PutU64(seqNo))); }
      assert marked ==> Frames() == frames + [] == frames;
      PumpSink(frames);
    }

    method PumpSink(ghost frames: seq<StrokeFrame>)
      requires Separate() && (sink != null ==> sink.Valid() && |sink.past| == |starts|)
      modifies this`starts, sink
      ensures sink != null ==> sink.Valid() && |sink.past| == |starts|
      ensures old(Linked(frames)) ==> Linked(frames)
      ensures sink != null ==> sink.refusals >= old(sink.refusals) && (sink.open ==> old(sink.open))
      ensures sink != null && old(sink.open) && sink.refusals == old(sink.refusals) ==> sink.open && sink.residual == []
      ensures Continues(old(Links()), old(Starts()), Links(), Starts(), 0)
      ensures sink != null ==>
                && sink.tick >= old(sink.tick)
                && (sink.kernel.Calm(old(sink.tick)) ==> sink.refusals == old(sink.refusals))
      ensures sink != null && old(sink.open && sink.residualHead < |sink.residual|)
              && sink.kernel.takes(old(sink.tick)) == Gone ==>
                && !sink.open && sink.tick == old(sink.tick) + 1
                && |Links()| > 0 && Links()[|Links()| - 1].wire == old(sink.wire)
    {
      hide Tracks, Kernel.Calm;
      if sink != null && sink.open {
        var _ := sink.Pump();
        if !sink.open { Settle(old(sink.past), old(sink.writes), frames); }
        ghost var l := if sink.open then Link(sink.writes, [], sink.wire) else sink.past[|old(sink.past)|];
        assert Links() == old(sink.past) + [l] && Starts() == old(starts) + [start];
        LastLink(old(sink.past), old(starts), Link(old(sink.writes), [], old(sink.wire)), l, start, 0);
      }
    }

    /** The loop of `resendBacklog`: journal frames in order, until the sink takes no more. */
    method SendAll(pending: seq<StrokeFrame>)
      requires Separate() && sink != null && sink.Valid() && sink.open && |sink.past| == |starts|
      requires !journal.failed ==>
               Linked(Frames()) && Numbered(Frames(), seqNo) && sentSeq <= seqNo && pending == Frames()[sentSeq..]
      modifies this`starts, this`sentSeq, this`sent, this`resent, sink
      ensures sink.Valid() && |sink.past| == |starts|
      ensures !journal.failed ==> Linked(Frames()) && sentSeq <= seqNo && sent - sentSeq == old(sent - sentSeq)
      ensures resent - old(resent) == sent - old(sent) >= 0
      ensures sink.refusals >= old(sink.refusals)
      ensures !journal.failed && sink.refusals == old(sink.refusals) ==>
                sink.open && sentSeq == seqNo && (|pending| > 0 || old(sink.residual) == [] ==> sink.residual == [])
      ensures Continues(old(Links()), old(Starts()), Links(), Starts(), sent - old(sent))
      ensures sink.tick >= old(sink.tick) && (sink.kernel.Calm(old(sink.tick)) ==> sink.refusals == old(sink.refusals))
    {
      hide Tracks, FramesOf, Continues, Links, Starts, Kernel.Calm;
      ContinuesSelf(Links(), Starts());
      var i := 0;
      while i < |pending|
        invariant 0 <= i <= |pending| && sink.open && sink.Valid() && |sink.past| == |starts|
        invariant !journal.failed ==> Linked(Frames()) && sentSeq == old(sentSeq) + i && sent == old(sent) + i
        invariant sink.refusals >= old(sink.refusals)
        invariant resent == old(resent) + i && sent == old(sent) + i
        invariant sink.refusals == old(sink.refusals) ==> (i > 0 || old(sink.residual) == [] ==> sink.residual == [])
        invariant Continues(old(Links()), old(Starts()), Links(), Starts(), sent - old(sent))
        invariant sink.tick >= old(sink.tick)
                  && (sink.kernel.Calm(old(sink.tick)) ==> sink.refusals == old(sink.refusals))
      {
        ghost var links, starts0, sent0 := Links(), Starts(), sent;
        sink.kernel.StaysCalm(old(sink.tick), sink.tick);
        var ok := Send(pending[i]);
        ContinuesBoth(old(Links()), old(Starts()), links, starts0, Links(), Starts(), sent0 - old(sent), sent - sent0);
        if !ok { break; }
        resent := resent + 1;
        i := i + 1;
      }
    }

    method ResendBacklog()
      requires Separate() && journal.Valid() && published == seqNo
               && (sink != null ==> sink.Valid() && |sink.past| == |starts|)
      requires !journal.failed ==> Linked(Frames()) && Counted(Frames())
      requires !journal.failed && spooled != seqNo - sentSeq ==> sink != null && sink.open && sentSeq < seqNo
      modifies this`starts, this`sentSeq, this`sent, this`resent, this`spooled, journal`file, journal`bufLen,
               journal`failed, sink
      ensures Valid() && (old(journal.failed) ==> journal.failed)
      ensures resent - old(resent) == sent - old(sent) >= 0
      ensures !journal.failed ==> Frames() == old(Frames())
      ensures sink != null ==> sink.refusals >= old(sink.refusals)
      ensures !journal.failed && sink != null && old(sink.open) && sink.refusals == old(sink.refusals) ==>
                sink.open && sentSeq == seqNo && (old(sink.residual) == [] ==> sink.residual == [])
      ensures Continues(old(Links()), old(Starts()), Links(), Starts(), sent - old(sent))
      ensures journal.sound && !old(journal.failed) ==> !journal.failed
      ensures sink != null ==>
                && sink.tick >= old(sink.tick)
                && (sink.kernel.Calm(old(sink.tick)) ==> sink.refusals == old(sink.refusals))
      ensures sink != null && old(!sink.open || sentSeq == seqNo) ==>
                unchanged(sink) && Links() == old(Links()) && sentSeq == old(sentSeq)
    {
      hide Tracks, FramesOf, GoodRecords, IsTable, EncodeAll, Header, Downs, Numbered, After, Continues, Links, Starts,
           Kernel.Calm, Sink.Valid;
      ContinuesSelf(Links(), Starts());
      if sink == null || !sink.open || sentSeq >= seqNo { return; }
      if Numbered(Frames(), seqNo) { Pending(Frames(), seqNo, sentSeq); }
      var pending := journal.FramesAfter(sentSeq);
      if pending.None? { return; }
      SendAll(pending.value);
      spooled := (seqNo - sentSeq) % 0x1_0000_0000_0000_0000;
    }

    /** Abilities and the point to send on from. No answer means every ability and no rewinding. */
    method Greet(remote: Answer<Greeting>)
      modifies this`reconnects, this`capLayer, this`capBrush, this`sentSeq, this`rewound
      ensures sentSeq == ResumePoint(old(sentSeq), remote) <= old(sentSeq)
      ensures sentSeq + rewound == old(sentSeq + rewound) && reconnects == old(reconnects) + 1
      ensures capLayer == (remote == Silent || remote.value.capLayer)
              && capBrush == (remote == Silent || remote.value.capBrush)
    {
      reconnects := reconnects + 1;
      if remote.Answered? {
        capLayer, capBrush := remote.value.capLayer, remote.value.capBrush;
        if remote.value.resumeFromSeq > 0 {
          var from := remote.value.resumeFromSeq - 1;
          if from < sentSeq {
            rewound := rewound + (sentSeq - from);
            sentSeq := from;
          }
        }
      } else {
        capLayer, capBrush := true, true;
      }
    }

    /** What a finished connection attempt means for the publisher. */
    method Adopt(remote: Answer<Greeting>, note: seq<u8>)
      requires Separate() && journal.Valid() && published == seqNo && sink != null && sink.Valid()
      requires |sink.past| == |starts| + if sink.open then 0 else 1
      requires if sink.open then sink.writes == [] else remote == Silent && sink.past[|starts|] == Link([], [], [])
      requires !journal.failed ==>
               Tracks(sink.past[..|starts|], starts, false, [], start, sentSeq, Frames()) && Counted(Frames())
               && spooled == seqNo - sentSeq
      modifies this, journal, journal.buf
      ensures Separate() && journal.Valid() && published == seqNo && |sink.past| == |starts|
      ensures !journal.failed ==>
              !old(journal.failed) && Frames() == old(Frames()) && Linked(Frames()) && Counted(Frames())
      ensures Noted(old(journal.records), journal.records)
      ensures !journal.failed && spooled != seqNo - sentSeq ==> sink.open && sentSeq < seqNo
      ensures seqNo == old(seqNo) && sentSeq == ResumePoint(old(sentSeq), remote)
      ensures sent == old(sent) && resent == old(resent) && reconnects == old(reconnects) + 1
      ensures rewound == old(rewound) + (old(sentSeq) - sentSeq)
      ensures capLayer == (remote == Silent || remote.value.capLayer)
              && capBrush == (remote == Silent || remote.value.capBrush)
      ensures if sink.open then starts == old(starts) && start == sentSeq + 1 else starts == old(starts) + [1]
      ensures journal.sound && !old(journal.failed) ==> !journal.failed
    {
      hide Tracks, FramesOf, GoodRecords, IsTable, EncodeAll, Header, Downs, Held, ResumePoint;
      ghost var frames := Frames();
      Greet(remote);
      assert ResumePoint(old(sentSeq), Silent) == old(sentSeq) by { Unanswered(old(sentSeq)); }
      Reopen(frames, old(sentSeq));
      var _ := journal.AppendNote(note);
      NoteKeeps(old(journal.records));
    }

    lemma NoAttempt(answer: Answer<Greeting>)
      ensures sink == null || sink.open ==> !Connects() && !Reaches() && Hears(answer) == Silent
      ensures !Connects() ==> !Reaches() && Hears(answer) == Silent
      ensures !Reaches() ==> Hears(answer) == Silent
    {
    }

    lemma Unanswered(sentSeq: u64)
      ensures ResumePoint(sentSeq, Silent) == sentSeq
    {
    }

    /** Ghost bookkeeping at the start of a connection. A connection that broke during the greeting
        carried nothing. */
    ghost method Reopen(frames: seq<StrokeFrame>, was: nat)
      requires sink != null && sink.Valid()
      requires |sink.past| == |starts| + if sink.open then 0 else 1
      requires if sink.open then sink.writes == [] else sink.past[|starts|] == Link([], [], [])
      modifies this`starts, this`start
      ensures |sink.past| == |starts|
      ensures old(Tracks(sink.past[..|starts|], starts, false, [], start, was, frames)) ==>
                sentSeq <= |frames| ==> Linked(frames)
      ensures if sink.open then starts == old(starts) && start == sentSeq + 1 else starts == old(starts) + [1]
    {
      if sink.open {
        assert sink.past[..|starts|] == sink.past;
        if Tracks(sink.past, starts, false, [], start, was, frames) && sentSeq <= |frames| {
          TracksOpened(sink.past, starts, start, was, sentSeq, frames);
        }
        start := sentSeq + 1;
      } else {
        starts := starts + [1];
        assert sink.past == sink.past[..|old(starts)|] + [Link([], [], [])];
      }
    }

    lemma NoteKeeps(records: seq<Record>)
      requires Noted(records, journal.records)
      ensures Frames() == FramesOf(records)
    {
      hide FramesOf;
      if journal.records != records {
        var p :| journal.records == records + [Record(TAG_NOTE, p)];
        FramesAppend(records, Record(TAG_NOTE, p));
        assert FramesOf(records) + [] == FramesOf(records);
      }
    }

    /** Maintenance: reconnects if needed, then resends in order whatever the peer has not taken. */
    method Pump(answer: Answer<Greeting>, note: seq<u8>)
      requires Valid()
      modifies this, journal, journal.buf, sink
      ensures Valid() && seqNo == old(seqNo)
      ensures !journal.failed ==> !old(journal.failed) && Frames() == old(Frames())
      ensures journal.sound && !old(journal.failed) ==> !journal.failed
      ensures Noted(old(journal.records), journal.records)
      ensures resent - old(resent) == sent - old(sent) >= 0
      ensures reconnects == old(reconnects) + if old(Connects()) then 1 else 0
      ensures if old(Connects())
              then capLayer == (old(Hears(answer)) == Silent || answer.value.capLayer)
                   && capBrush == (old(Hears(answer)) == Silent || answer.value.capBrush)
              else capLayer == old(capLayer) && capBrush == old(capBrush)
      ensures rewound == old(rewound) + (old(sentSeq) - ResumePoint(old(sentSeq), old(Hears(answer))))
      ensures old(Connects()) ==>
                Resumes(old(Links()), old(Starts()), Links(), Starts(),
                  if old(Reaches()) then ResumePoint(old(sentSeq), old(Hears(answer))) + 1 else 1, sent - old(sent))
      ensures old(Connects() && !Reaches()) ==> Links() == old(Links()) + [Link([], [], [])]
      ensures old(Connects()) ==> sink.tick >= old(sink.tick) + 2
      ensures sink != null && old(!sink.open && !Reaches()) ==> !sink.open && sentSeq == old(sentSeq)
      ensures !old(Connects()) ==> Continues(old(Links()), old(Starts()), Links(), Starts(), sent - old(sent))
      ensures sink != null ==>
                && sink.tick >= old(sink.tick)
                && (sink.kernel.Calm(old(sink.tick)) ==> sink.refusals == old(sink.refusals))
      ensures !journal.failed && sink != null && sink.refusals == old(sink.refusals) && old(sink.open || Reaches()) ==>
                sink.open && sentSeq == seqNo && sink.residual == []
      ensures old(Reaches()) && ResumePoint(old(sentSeq), old(Hears(answer))) == seqNo ==>
                && sink.open && sink.residual == [] && sink.wire == [] && sentSeq == seqNo
                && sink.tick == old(sink.tick) + 2
    {
      hide Tracks, FramesOf, GoodRecords, IsTable, EncodeAll, Header, Downs, Held, Numbered, ResumePoint, Continues,
           Resumes, Kernel.Calm, Links, Starts, Sink.Valid, Linked, Counted, Frames, Connects, Reaches, Hears;
      Unanswered(sentSeq);
      NoAttempt(answer);
      ContinuesSelf(Links(), Starts());
      if sink == null { return; }
      if !sink.open {
        var connected := Reconnect(answer, note);
        if !connected { return; }
      } else {
        PumpSink(Frames());
      }
      ghost var links, starts0, sent0 := Links(), Starts(), sent;
      ghost var from := if sink.open then sentSeq + 1 else 1;
      sink.kernel.StaysCalm(old(sink.tick), sink.tick);
      ResendBacklog();
      if old(Connects()) {
        ResumesOn(old(Links()), old(Starts()), links, starts0, Links(), Starts(), from, 0, sent - sent0);
      } else {
        ContinuesBoth(old(Links()), old(Starts()), links, starts0, Links(), Starts(), 0, sent - sent0);
      }
    }

    /** Connects and exchanges greetings; either may fail. */
    method Reconnect(answer: Answer<Greeting>, note: seq<u8>) returns (connected: bool)
      requires Valid() && sink != null && !sink.open
      modifies this, journal, journal.buf, sink
      ensures Separate() && journal.Valid() && published == seqNo == old(seqNo) && sink.Valid()
              && |sink.past| == |starts|
      ensures connected == old(Connects()) && sink.open == old(Reaches())
      ensures !connected ==> Valid() && journal.records == old(journal.records)
      ensures !connected ==> capLayer == old(capLayer) && capBrush == old(capBrush)
      ensures !journal.failed ==>
              !old(journal.failed) && Frames() == old(Frames()) && Linked(Frames()) && Counted(Frames())
      ensures !journal.failed && spooled != seqNo - sentSeq ==> sink.open && sentSeq < seqNo
      ensures journal.sound && !old(journal.failed) ==> !journal.failed
      ensures Noted(old(journal.records), journal.records) && sink.refusals == old(sink.refusals)
              && sink.residual == [] && sink.tick == old(sink.tick) + if connected then 2 else 1
      ensures sent == old(sent) && resent == old(resent) && reconnects == old(reconnects) + if connected then 1 else 0
      ensures connected ==>
              capLayer == (old(Hears(answer)) == Silent || answer.value.capLayer)
              && capBrush == (old(Hears(answer)) == Silent || answer.value.capBrush)
      ensures sentSeq == ResumePoint(old(sentSeq), old(Hears(answer)))
      ensures rewound == old(rewound) + (old(sentSeq) - sentSeq)
      ensures connected ==>
              && Resumes(old(Links()), old(Starts()), Links(), Starts(), if sink.open then sentSeq + 1 else 1, 0)
              && Links() == old(Links()) + [Link([], [], [])] && sink.wire == []
      ensures !connected ==> Links() == old(Links()) && Starts() == old(Starts())
    {
      hide Tracks, FramesOf, GoodRecords, IsTable, EncodeAll, Header, Downs, Held, Numbered, ResumePoint;
      Unanswered(sentSeq);
      connected := sink.Connect();
      if !connected { return; }
      var remote := sink.Handshake(answer);
      assert sink.past[..|starts|] == old(sink.past);
      Adopt(remote, note);
    }

    /** The promised `published == sent + spooled` counts frames a peer asked for again twice: it holds
        exactly as long as no peer did. With the frames rolled back it always holds. */
    lemma StatsBalance()
      requires Valid() && !journal.failed
      ensures published + rewound == sent + spooled
      ensures published == sent + spooled <==> rewound == 0
    {
    }

    /** What was handed to the connections, and how far that is on the one that is open. */
    lemma Standing()
      requires Valid() && !journal.failed && sink != null
      ensures |Links()| == |Starts()| && sentSeq + rewound == sent
      ensures sink.open ==>
                |Links()| > 0 && sentSeq == Starts()[|Links()| - 1] - 1 + |Links()[|Links()| - 1].writes|
    {
      hide Sink.Valid, Writer.Valid, Frames, Carries, AllCarry, Numbered, Downs;
    }

    /** The connections, the open one included, as the delivery laws want them. */
    lemma LinksCarry()
      requires Valid() && !journal.failed && sink != null
      ensures |Links()| == |Starts()| && AllCarry(Links(), Starts(), Frames())
      ensures forall i :: 0 <= i < |Links()| ==> Links()[i].Consistent()
    {
      hide IsWireFrame, FramesOf, Downs, Numbered, Flatten, GoodRecords, IsTable, EncodeAll, Header;
      if sink.open {
        var l := Link(sink.writes, [], sink.wire);
        assert Links() == sink.past + [l] && Starts() == starts + [start];
        assert sink.wire <= Flatten(sink.writes);
        assert Carries(Link(sink.writes, [], []), start, Frames());
        assert Carries(l, start, Frames());
      } else {
        assert Links() == sink.past && Starts() == starts;
      }
    }

    /** The safety theorem, for every reachable state: on each connection the peer sees consecutive
        journal frames, changed at most by blanked ids, and with safe resumption what it holds over
        all connections has no hole. */
    lemma Gapless(i: nat, k: nat, x: int)
      requires Valid() && !journal.failed && sink != null
      ensures |Links()| == |Starts()|
      ensures i < |Links()| && k < Complete(Links()[i].wire) ==>
                1 <= Starts()[i] + k <= seqNo
                  && Blanked(Decode(Chunk(Links()[i].wire, k)), Frames()[Starts()[i] - 1 + k])
                && Decode(Chunk(Links()[i].wire, k)).seqNo == Starts()[i] + k
      ensures Held(Links(), Starts()) <= seqNo
      ensures Resumed(Links(), Starts()) ==>
                (PeerHas(Links(), Starts(), x) <==> 1 <= x <= Held(Links(), Starts()))
    {
      hide IsWireFrame, Held, FramesOf, Downs, Decode, Resumed, PeerHas, Links, Starts;
      LinksCarry();
      HeldBound(Links(), Starts(), Frames());
      if Resumed(Links(), Starts()) { NoHoles(Links(), Starts(), x); }
      if i < |Links()| && k < Complete(Links()[i].wire) {
        assert Carries(Links()[i], Starts()[i], Frames());
        PeerSees(Links()[i], Starts()[i], Frames());
      }
    }

    /** Once everything was sent and nothing is left in the residual, the peer holds every frame. */
    lemma AllDelivered(x: int)
      requires Valid() && !journal.failed && sink != null
      requires |Links()| == |Starts()| && Resumed(Links(), Starts())
      requires sink.open && sentSeq == seqNo && sink.residual == []
      ensures |Links()| == |Starts()| && (PeerHas(Links(), Starts(), x) <==> 1 <= x <= seqNo)
    {
      hide IsWireFrame, FramesOf, Downs, Decode, Resumed, PeerHas, Held, Flatten;
      Gapless(0, 0, x);
      var l := Link(sink.writes, [], sink.wire);
      HeldGrows(sink.past, starts, l, start);
      assert sink.residual[sink.residualHead..] == [] && sink.wire == Flatten(sink.writes);
      assert Carries(Link(sink.writes, [], []), start, Frames());
      WholeWrites(sink.writes, start, Frames());
    }

    lemma WholeWrites(writes: seq<seq<u8>>, start: nat, frames: seq<StrokeFrame>)
      requires Carries(Link(writes, [], []), start, frames)
      ensures Complete(Flatten(writes)) == |writes|
    {
      hide Flatten, Decode, Encode;
      forall k | 0 <= k < |writes| ensures |writes[k]| == FRAME_SIZE {
        assert IsWireFrame(writes[k], frames[start - 1 + k]);
      }
      FlattenFrames(writes);
    }
  }

  /** The peer never holds a number that was not published. */
  lemma {:induction false} HeldBound(links: seq<Link>, starts: seq<nat>, frames: seq<StrokeFrame>)
    requires |links| == |starts| && AllCarry(links, starts, frames)
    requires forall i :: 0 <= i < |links| ==> links[i].Consistent()
    ensures Held(links, starts) <= |frames|
  {
    hide Carries;
    var n := |links|;
    if n > 0 {
      assert AllCarry(links[..n - 1], starts[..n - 1], frames);
      HeldBound(links[..n - 1], starts[..n - 1], frames);
      ReachBound(links[n - 1], starts[n - 1], frames);
    }
  }

  lemma ReachBound(l: Link, s: nat, frames: seq<StrokeFrame>)
    requires l.Consistent() && Carries(l, s, frames)
    ensures Reach(l, s) <= |frames|
  {
    hide IsWireFrame;
    PeerSees(l, s, frames);
  }

  /** Does this greeting, or its absence, make sending go on no later than at the first frame missing? */
  predicate Truthful(greeting: Answer<Greeting>, sentSeq: nat, held: nat) {
    || sentSeq <= held
    || (greeting.Answered? && 0 < greeting.value.resumeFromSeq <= held + 1)
  }

  /** For every greeting: resumption is safe iff the peer asks for something no later than its first
      missing frame, or already holds all that was sent. An answer of 0, or of a later number, does not
      help. */
  lemma TruthfulPeer(sentSeq: u64, held: nat, greeting: Answer<Greeting>)
    ensures ResumePoint(sentSeq, greeting) <= held <==> Truthful(greeting, sentSeq, held)
  {
  }

  /** The greetings that leave the count of sent frames alone: none, or one that asks for nothing up to
      `sentSeq`. */
  lemma NoRewind(sentSeq: u64, greeting: Answer<Greeting>)
    ensures ResumePoint(sentSeq, greeting) == sentSeq <==>
            greeting == Silent || !(0 < greeting.value.resumeFromSeq <= sentSeq)
  {
  }
}
