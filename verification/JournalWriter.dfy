/** The writing side of the journal (sigan/src/journal.cpp): a fixed buffer in front of a file whose
    writes may fail or stop half way. */
module JournalWriter {
  import opened Bytes
  import opened Crc
  import opened Frame
  import opened Journal
  import opened Wrappers

  /** The frames after a given sequence number. */
  function After(frames: seq<StrokeFrame>, seqNo: u64): seq<StrokeFrame> {
    if |frames| == 0 then []
    else (if frames[0].seqNo > seqNo then [frames[0]] else []) + After(frames[1..], seqNo)
  }

  lemma {:induction false} AfterAppend(frames: seq<StrokeFrame>, f: StrokeFrame, seqNo: u64)
    ensures After(frames + [f], seqNo) == After(frames, seqNo) + if f.seqNo > seqNo then [f] else []
  {
    if |frames| == 0 {
      assert (frames + [f])[1..] == [];
    } else {
      assert (frames + [f])[1..] == frames[1..] + [f];
      AfterAppend(frames[1..], f, seqNo);
      var first, last := if frames[0].seqNo > seqNo then [frames[0]] else [], if f.seqNo > seqNo then [f] else [];
      assert first + (After(frames[1..], seqNo) + last) == (first + After(frames[1..], seqNo)) + last;
    }
  }

  /** The filter loop of `framesAfter`. */
  method KeepAfter(frames: seq<StrokeFrame>, afterSeq: u64) returns (out: seq<StrokeFrame>)
    ensures out == After(frames, afterSeq)
  {
    out := [];
    var i := 0;
    while i < |frames|
      invariant 0 <= i <= |frames| && out == After(frames[..i], afterSeq)
    {
      AfterAppend(frames[..i], frames[i], afterSeq);
      assert frames[..i + 1] == frames[..i] + [frames[i]];
      if frames[i].seqNo > afterSeq { out := out + [frames[i]]; }
      i := i + 1;
    }
    assert frames[..i] == frames;
  }

  class Writer {
    const table: seq<Word>
    const buf: array<u8>
    /** Does the file take everything? Nothing is known of a file that need not. */
    const sound: bool
    ghost const sessionId: u64
    ghost const wallAnchor: u64
    var file: seq<u8>
    var bufLen: nat
    var frameCount: nat
    var failed: bool
    /** The records accepted so far. */
    ghost var records: seq<Record>

    ghost predicate Valid()
      reads this, buf
    {
      && buf.Length == BUF_CAPACITY && bufLen <= BUF_CAPACITY
      && IsTable(table)
      && GoodRecords(records)
      && (!failed ==> file + buf[..bufLen] == Header(sessionId, wallAnchor) + EncodeAll(records))
    }

    constructor (sessionId: u64, wallAnchor: u64, sound: bool)
      ensures Valid() && fresh(buf) && !failed && records == [] && this.sound == sound
    {
      var t := BuildTable();
      this.sound := sound;
      this.sessionId, this.wallAnchor := sessionId, wallAnchor;
      table := t;
      buf := new u8[BUF_CAPACITY];
      file := Header(sessionId, wallAnchor);
      bufLen, frameCount, failed := 0, 0, false;
      records := [];
    }

    /** Pushes the buffer to the file. `fwrite` may stop after any prefix and `fflush` may fail; both
        leave the sticky `failed` flag. */
    method Flush() returns (ok: bool)
      requires Valid()
      modifies this`file, this`bufLen, this`failed
      ensures Valid() && (ok ==> bufLen == 0)
      ensures !ok ==> failed
      ensures old(failed) ==> failed
      ensures sound && !old(failed) ==> !failed
    {
      if bufLen != 0 {
        var want := bufLen;
        var written :| 0 <= written <= want && (sound ==> written == want);
        file := file + buf[..written];
        bufLen := 0;
        if written != want {
          failed := true;
          return false;
        }
      }
      assert buf[..0] == [];
      ok :| sound ==> ok;
      if !ok { failed := true; }
    }

    /** Copies bytes into the buffer at `at`. */
    method Store(at: nat, bytes: seq<u8>)
      requires at + |bytes| <= buf.Length
      modifies buf
      ensures buf[..at] == old(buf[..at]) && buf[at..at + |bytes|] == bytes
    {
      var i := 0;
      while i < |bytes|
        invariant 0 <= i <= |bytes|
        invariant buf[..at] == old(buf[..at]) && buf[at..at + i] == bytes[..i]
      {
        buf[at + i] := bytes[i];
        i := i + 1;
      }
    }

    /** Writes one encoded record into the buffer behind what is already there. */
    method BufferRecord(r: Record)
      requires IsTable(table) && bufLen + OVERHEAD + |r.payload| <= buf.Length
      modifies this`bufLen, buf
      ensures bufLen == old(bufLen) + OVERHEAD + |r.payload|
      ensures buf[..bufLen] == old(buf[..bufLen]) + EncodeRecord(r)
    {
      hide Crc32, PutCrc, IsTable, PutLE;
      var len := |r.payload|;
      ghost var was := buf[..bufLen];
      Store(bufLen, [r.tag] + PutLE(len, 4) + r.payload);
      assert buf[bufLen..bufLen + 5 + len] == Body(r);
      ghost var covered := buf[..bufLen + 5 + len];
      assert covered == was + Body(r);
      var c := ComputeCrc32(table, buf[bufLen..bufLen + 5 + len], ZERO);
      Store(bufLen + 5 + len, PutCrc(c));
      bufLen := bufLen + OVERHEAD + len;
      assert buf[..bufLen] == covered + PutCrc(c);
      assert buf[..bufLen] == was + (Body(r) + PutCrc(c));
    }

    /** Appends one record. A refused write leaves `failed` set. */
    method WriteRecord(tag: u8, payload: seq<u8>) returns (ok: bool)
      requires Valid() && !BadFrame(Record(tag, payload))
      modifies this, buf
      ensures Valid() && frameCount == old(frameCount)
      ensures old(failed) ==> failed
      ensures ok ==> records == old(records) + [Record(tag, payload)]
      ensures !ok ==> failed && records == old(records)
      ensures sound && !old(failed) && OVERHEAD + |payload| <= BUF_CAPACITY ==> !failed
    {
      hide EncodeRecord, EncodeAll, IsTable, Header;
      var need := OVERHEAD + |payload|;
      if need > buf.Length {
        failed := true;
        return false;
      }
      if bufLen + need > buf.Length {
        var flushed := Flush();
        if !flushed { return false; }
      }
      ghost var r := Record(tag, payload);
      ghost var was := buf[..bufLen];
      BufferRecord(Record(tag, payload));
      EncodeAllAppend(records, r);
      assert file + (was + EncodeRecord(r)) == (file + was) + EncodeRecord(r);
      assert Header(sessionId, wallAnchor) + (EncodeAll(records) + EncodeRecord(r))
             == (Header(sessionId, wallAnchor) + EncodeAll(records)) + EncodeRecord(r);
      records := records + [r];
      ok := true;
    }

    method AppendFrame(f: StrokeFrame) returns (ok: bool)
      requires Valid()
      modifies this, buf
      ensures Valid() && (old(failed) ==> failed) && (!ok ==> failed)
      ensures records == if ok then old(records) + [Record(TAG_FRAME, Encode(f))] else old(records)
      ensures frameCount == old(frameCount) + if ok then 1 else 0
      ensures sound && !old(failed) ==> !failed
    {
      hide Encode, EncodeAll, IsTable, Header, GoodRecords;
      ok := WriteRecord(TAG_FRAME, Encode(f));
      if ok { frameCount := frameCount + 1; }
    }

    /** Marks everything so far as finished strokes and flushes. */
    method MarkStrokeEnd(seqNo: u64) returns (ok: bool)
      requires Valid()
      modifies this, buf
      ensures Valid() && (old(failed) ==> failed) && (!ok ==> failed)
      ensures records == old(records) + [Record(TAG_STROKE_END, PutU64(seqNo))] || (!ok && records == old(records))
      ensures ok ==> bufLen == 0 && records == old(records) + [Record(TAG_STROKE_END, PutU64(seqNo))]
      ensures sound && !old(failed) ==> !failed
    {
      ok := WriteRecord(TAG_STROKE_END, PutU64(seqNo));
      if ok { ok := Flush(); }
    }

    /** A note longer than the buffer is cut. */
    method AppendNote(text: seq<u8>) returns (ok: bool)
      requires Valid()
      modifies this, buf
      ensures Valid() && (old(failed) ==> failed) && (!ok ==> failed)
      ensures records == old(records) || exists p :: records == old(records) + [Record(TAG_NOTE, p)]
      ensures sound && !old(failed) ==> !failed
    {
      var maxLen := buf.Length - OVERHEAD;
      var n := if |text| < maxLen then |text| else maxLen;
      ok := WriteRecord(TAG_NOTE, text[..n]);
    }

    /** `framesAfter`: flushes, reads the file back and keeps the later frames. While nothing failed it
        returns exactly the appended frames after `afterSeq`. */
    method FramesAfter(afterSeq: u64) returns (r: Option<seq<StrokeFrame>>)
      requires Valid()
      modifies this`file, this`bufLen, this`failed
      ensures Valid() && (old(failed) ==> failed)
      ensures !failed ==> r == Some(After(FramesOf(records), afterSeq))
      ensures sound && !old(failed) ==> !failed
    {
      hide EncodeAll, ScanFrom, Header, FramesOf, IsTable;
      var flushed := Flush();
      if !flushed { return None; }
      var scanned := Scan(table, file);
      if !failed { ReadsBack(sessionId, wallAnchor, records, file + buf[..bufLen]); }
      assert buf[..0] == [] && file + [] == file;
      if scanned.None? { return None; }
      var later := KeepAfter(scanned.value.frames, afterSeq);
      r := Some(later);
    }
  }

  /** The uncut journal reads back completely. */
  lemma ReadsBack(sessionId: u64, wallAnchor: u64, rs: seq<Record>, data: seq<u8>)
    requires GoodRecords(rs) && data == Header(sessionId, wallAnchor) + EncodeAll(rs)
    ensures HeaderOk(data) && ScanFile(data).frames == FramesOf(rs) && !ScanFile(data).truncated
  {
    hide EncodeAll, Header, HeaderOk, ScanFile, Whole, Replay, FramesOf, LastEnd;
    var n := |data|;
    assert data == (Header(sessionId, wallAnchor) + EncodeAll(rs))[..n];
    CutJournal(sessionId, wallAnchor, rs, n);
    WholeAll(rs);
    assert rs[..|rs|] == rs;
    ReplayMeaning(JournalScan(1, sessionId, wallAnchor, [], 0, 0, false, []), rs);
  }

  lemma {:induction false} WholeAll(rs: seq<Record>)
    ensures Whole(rs, |EncodeAll(rs)|) == |rs|
  {
    hide EncodeRecord;
    if |rs| > 0 { WholeAll(rs[1..]); }
  }
}
