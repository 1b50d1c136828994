/** The append-only journal (sigan/src/journal.cpp) and crash recovery (`recoverJournal` in
    sigan/src/publisher.cpp). The file is the sequence of bytes that reached the disk. */
module Journal {
  import opened Bytes
  import opened Crc
  import opened Frame
  import opened Wrappers

  const HEADER_SIZE := 32
  const OVERHEAD := 9
  const BUF_CAPACITY := 65536

  const TAG_FRAME: u8 := 1
  const TAG_STROKE_END: u8 := 2
  const TAG_NOTE: u8 := 3

  const MAGIC: seq<u8> := [0x4D, 0x41, 0x52, 0x49, 0x4A, 0x52, 0x4E, 0x4C]

  datatype Record = Record(tag: u8, payload: seq<u8>)

  datatype JournalScan = JournalScan(
    version: u32, sessionId: u64, wallAnchor: u64, frames: seq<StrokeFrame>, completeCount: nat,
    lastCompleteSeq: u64, truncated: bool, notes: seq<seq<u8>>)

  // ---- the format ------------------------------------------------------------------------------

  predicate Encodable(r: Record) { |r.payload| < 0x1_0000_0000 }

  /** Tag, length and payload: what the checksum covers. */
  function Body(r: Record): seq<u8> {
    [r.tag] + PutLE(|r.payload|, 4) + r.payload
  }

  function EncodeRecord(r: Record): (b: seq<u8>)
    ensures |b| == OVERHEAD + |r.payload|
  {
    Body(r) + PutCrc(Crc32(Body(r), ZERO))
  }

  function EncodeAll(rs: seq<Record>): seq<u8> {
    if |rs| == 0 then [] else EncodeRecord(rs[0]) + EncodeAll(rs[1..])
  }

  lemma {:induction false} EncodeAllAppend(rs: seq<Record>, r: Record)
    ensures EncodeAll(rs + [r]) == EncodeAll(rs) + EncodeRecord(r)
  {
    hide EncodeRecord;
    if |rs| == 0 {
      assert rs + [r] == [r];
      assert EncodeAll([r]) == EncodeRecord(r) + EncodeAll([]);
    } else {
      EncodeAllAppend(rs[1..], r);
      assert (rs + [r])[1..] == rs[1..] + [r];
    }
  }

  function Header(sessionId: u64, wallAnchor: u64): (h: seq<u8>)
    ensures |h| == HEADER_SIZE
  {
    MAGIC + PutU32(1) + PutU32(HEADER_SIZE) + PutU64(sessionId) + PutU64(wallAnchor)
  }

  // ---- reading -----------------------------------------------------------------------------------

  /** The record at byte `i`, or None where the tail is torn or the checksum is wrong. */
  function ReadRecord(data: seq<u8>, i: nat): (r: Option<Record>)
    requires i < |data|
    ensures r.Some? ==> Encodable(r.value) && i + OVERHEAD + |r.value.payload| <= |data|
  {
    if i + 5 > |data| then None
    else
      var len := GetU32(data, i + 1);
      if i + OVERHEAD + len > |data| then None
      else if Crc32(data[i..i + 5 + len], ZERO) != GetCrc(data[i + 5 + len..i + OVERHEAD + len]) then None
      else Some(Record(data[i], data[i + 5..i + 5 + len]))
  }

  /** A frame record of the wrong size stops the scan. */
  predicate BadFrame(r: Record) { r.tag == TAG_FRAME && |r.payload| != FRAME_SIZE }

  /** What one good record adds to the scan; unknown tags are skipped. */
  function Apply(out: JournalScan, r: Record): JournalScan {
    if BadFrame(r) then out
    else if r.tag == TAG_FRAME then out.(frames := out.frames + [Decode(r.payload)])
    else if r.tag == TAG_STROKE_END && |r.payload| == 8 then
      out.(lastCompleteSeq := GetU64(r.payload, 0), completeCount := |out.frames|)
    else if r.tag == TAG_NOTE then out.(notes := out.notes + [r.payload])
    else out
  }

  /** The scan loop from byte `i`. */
  function ScanFrom(data: seq<u8>, i: nat, out: JournalScan): JournalScan
    decreases |data| - i
  {
    if i >= |data| then out
    else
      match ReadRecord(data, i)
      case None => out.(truncated := true)
      case Some(r) =>
        if BadFrame(r) then out.(truncated := true)
        else ScanFrom(data, i + OVERHEAD + |r.payload|, Apply(out, r))
  }

  predicate HeaderOk(data: seq<u8>) { |data| >= HEADER_SIZE && data[..8] == MAGIC }

  function Start(data: seq<u8>): nat
    requires HeaderOk(data)
  {
    var h := GetU32(data, 12);
    if h < HEADER_SIZE then HEADER_SIZE else h
  }

  function Empty(data: seq<u8>): JournalScan
    requires HeaderOk(data)
  {
    JournalScan(GetU32(data, 8), GetU64(data, 16), GetU64(data, 24), [], 0, 0, false, [])
  }

  /** One turn of the loop in `Journal::scan`: None when the file ends inside the record or the checksum
      is wrong. */
  method ReadNext(table: seq<Word>, data: seq<u8>, i: nat) returns (r: Option<Record>)
    requires IsTable(table) && i < |data|
    ensures r == ReadRecord(data, i)
  {
    hide Crc32, GetCrc, IsTable;
    if i + 5 > |data| { return None; }
    var tag, len := data[i], GetU32(data, i + 1);
    if i + OVERHEAD + len > |data| { return None; }
    var stored := GetCrc(data[i + 5 + len..i + OVERHEAD + len]);
    var crc := ComputeCrc32(table, data[i..i + 5 + len], ZERO);
    if crc != stored { return None; }
    r := Some(Record(tag, data[i + 5..i + 5 + len]));
  }

  /** `Journal::scan` as a loop over the file's bytes; None is the parse error of a broken header. */
  method Scan(table: seq<Word>, data: seq<u8>) returns (r: Option<JournalScan>)
    requires IsTable(table)
    ensures r == if HeaderOk(data) then Some(ScanFrom(data, Start(data), Empty(data))) else None
  {
    hide Apply, IsTable, ReadRecord, Start, Empty;
    if |data| < HEADER_SIZE || data[..8] != MAGIC { return None; }
    var out := Empty(data);
    var i: nat := Start(data);
    while i < |data|
      invariant ScanFrom(data, i, out) == ScanFrom(data, Start(data), Empty(data))
      decreases |data| - i
    {
      var rec := ReadNext(table, data, i);
      if rec.None? || BadFrame(rec.value) {
        out := out.(truncated := true);
        break;
      }
      out := Apply(out, rec.value);
      i := i + OVERHEAD + |rec.value.payload|;
    }
    r := Some(out);
  }

  // ---- what a prefix of the file tells -----------------------------------------------------------

  ghost predicate GoodRecords(rs: seq<Record>) {
    forall i :: 0 <= i < |rs| ==> Encodable(rs[i]) && !BadFrame(rs[i])
  }

  /** The records applied in order. */
  function Replay(out: JournalScan, rs: seq<Record>): JournalScan
    decreases |rs|
  {
    if |rs| == 0 then out else Replay(Apply(out, rs[0]), rs[1..])
  }

  /** How many records lie wholly inside the first `n` bytes. */
  function Whole(rs: seq<Record>, n: nat): (k: nat)
    ensures k <= |rs|
  {
    if |rs| == 0 || n < |EncodeRecord(rs[0])| then 0 else 1 + Whole(rs[1..], n - |EncodeRecord(rs[0])|)
  }

  lemma SubSlice(data: seq<u8>, i: nat, n: nat, a: nat, b: nat)
    requires a <= b <= n && i + n <= |data|
    ensures data[i..i + n][a..b] == data[i + a..i + b]
  {
    var s, t := data[i..i + n][a..b], data[i + a..i + b];
    forall k | 0 <= k < b - a
      ensures s[k] == t[k]
    {
      assert s[k] == data[i..i + n][a + k] == data[i + (a + k)];
    }
  }

  lemma LengthField(data: seq<u8>, at: nat, len: nat)
    requires at + 4 <= |data| && data[at..at + 4] == PutLE(len, 4) && len < 0x1_0000_0000
    ensures GetU32(data, at) == len
  {
    hide PutLE, GetLE;
    Widths();
    GetPut(len, 4);
  }

  /** Reading back a whole record. */
  lemma ReadWhole(data: seq<u8>, i: nat, r: Record)
    requires Encodable(r) && i + OVERHEAD + |r.payload| <= |data|
    requires data[i..i + OVERHEAD + |r.payload|] == EncodeRecord(r)
    ensures ReadRecord(data, i) == Some(r)
  {
    hide Crc32, PutCrc, GetCrc, PutLE, GetLE;
    var len, b := |r.payload|, EncodeRecord(r);
    assert b[1..5] == PutLE(len, 4);
    SubSlice(data, i, OVERHEAD + len, 1, 5);
    LengthField(data, i + 1, len);
    assert data[i..i + 5 + len] == b[..5 + len] == Body(r);
    assert data[i + 5 + len..i + OVERHEAD + len] == b[5 + len..] == PutCrc(Crc32(Body(r), ZERO));
    GetPutCrc(Crc32(Body(r), ZERO));
    assert data[i + 5..i + 5 + len] == b[5..5 + len] == r.payload;
    assert data[i] == b[0] == r.tag;
  }

  /** A proper, nonempty prefix of a record is seen as torn. */
  lemma ReadTorn(data: seq<u8>, i: nat, r: Record)
    requires Encodable(r) && i < |data| < i + OVERHEAD + |r.payload|
    requires data[i..] == EncodeRecord(r)[..|data| - i]
    ensures ReadRecord(data, i) == None
  {
    hide Crc32, PutCrc, PutLE, GetLE;
    if i + 5 <= |data| {
      var len, b := |r.payload|, EncodeRecord(r);
      assert b[1..5] == PutLE(len, 4);
      assert data[i + 1..i + 5] == data[i..][1..5];
      LengthField(data, i + 1, len);
    }
  }

  /** Scanning any prefix of an encoded run of records yields exactly the records wholly inside it,
      and reports truncation exactly when the cut is not on a record boundary. */
  lemma {:induction false} ScanPrefix(data: seq<u8>, i: nat, rs: seq<Record>, out: JournalScan)
    requires GoodRecords(rs) && i <= |data| && !out.truncated
    requires data[i..] <= EncodeAll(rs)
    ensures var k := Whole(rs, |data| - i);
            ScanFrom(data, i, out) == Replay(out, rs[..k]).(truncated := |data| - i != |EncodeAll(rs[..k])|)
    decreases |rs|
  {
    hide EncodeRecord, ReadRecord, Apply;
    ReplayKeepsFlag(out, rs[..Whole(rs, |data| - i)]);
    if i == |data| {
      if |rs| > 0 { assert |EncodeRecord(rs[0])| > 0; }
    } else {
      var r, rest := rs[0], rs[1..];
      var e := EncodeRecord(r);
      if |data| - i < |e| {
        assert data[i..] == EncodeAll(rs)[..|data| - i] == e[..|data| - i];
        ReadTorn(data, i, r);
        assert rs[..0] == [];
      } else {
        assert data[i..i + |e|] == data[i..][..|e|] == EncodeAll(rs)[..|e|] == e;
        ReadWhole(data, i, r);
        assert data[i + |e|..] == data[i..][|e|..];
        assert EncodeAll(rs)[|e|..] == EncodeAll(rest);
        ApplyKeepsFlag(out, r);
        ScanPrefix(data, i + |e|, rest, Apply(out, r));
        var k := Whole(rest, |data| - i - |e|);
        assert rs[..k + 1][1..] == rest[..k];
      }
    }
  }

  lemma ApplyKeepsFlag(out: JournalScan, r: Record)
    ensures Apply(out, r).truncated == out.truncated
  {
  }

  lemma {:induction false} ReplayKeepsFlag(out: JournalScan, rs: seq<Record>)
    ensures Replay(out, rs).truncated == out.truncated
    decreases |rs|
  {
    hide Apply;
    if |rs| > 0 {
      ApplyKeepsFlag(out, rs[0]);
      ReplayKeepsFlag(Apply(out, rs[0]), rs[1..]);
    }
  }

  /** `Whole` is maximal: the next record is not complete. */
  lemma {:induction false} WholeIsMaximal(rs: seq<Record>, n: nat)
    ensures |EncodeAll(rs[..Whole(rs, n)])| <= n
    ensures Whole(rs, n) < |rs| ==> n < |EncodeAll(rs[..Whole(rs, n) + 1])|
  {
    hide EncodeRecord;
    if |rs| > 0 {
      var e := |EncodeRecord(rs[0])|;
      if n < e {
        assert rs[..1][0] == rs[0] && rs[..1][1..] == [];
      } else {
        var k := Whole(rs[1..], n - e);
        WholeIsMaximal(rs[1..], n - e);
        assert rs[..k + 1][1..] == rs[1..][..k];
        if k + 1 < |rs| { assert rs[..k + 2][1..] == rs[1..][..k + 1]; }
      }
    }
  }

  lemma HeaderReads(sessionId: u64, wallAnchor: u64, data: seq<u8>)
    requires Header(sessionId, wallAnchor) <= data
    ensures HeaderOk(data) && Start(data) == HEADER_SIZE
    ensures Empty(data) == JournalScan(1, sessionId, wallAnchor, [], 0, 0, false, [])
  {
    hide PutLE, GetLE;
    var h := Header(sessionId, wallAnchor);
    assert data[..8] == h[..8] == MAGIC;
    assert data[8..12] == h[8..12] == PutU32(1);
    assert data[12..16] == h[12..16] == PutU32(HEADER_SIZE);
    assert data[16..24] == h[16..24] == PutU64(sessionId);
    assert data[24..32] == h[24..32] == PutU64(wallAnchor);
    assert PutU32(1)[0..4] == PutU32(1) && PutU32(HEADER_SIZE)[0..4] == PutU32(HEADER_SIZE);
    assert PutU64(sessionId)[0..8] == PutU64(sessionId) && PutU64(wallAnchor)[0..8] == PutU64(wallAnchor);
  }

  /** A scan of the whole file. */
  function ScanFile(data: seq<u8>): JournalScan
    requires HeaderOk(data)
  {
    ScanFrom(data, Start(data), Empty(data))
  }

  /** A journal cut anywhere after its header: the scan returns the records wholly inside the
      prefix, and `truncated` exactly when the cut is not on a record boundary. */
  lemma CutJournal(sessionId: u64, wallAnchor: u64, rs: seq<Record>, n: nat)
    requires GoodRecords(rs) && HEADER_SIZE <= n <= HEADER_SIZE + |EncodeAll(rs)|
    ensures var cut := (Header(sessionId, wallAnchor) + EncodeAll(rs))[..n];
            var k := Whole(rs, n - HEADER_SIZE);
            && HeaderOk(cut)
            && ScanFile(cut) == Replay(JournalScan(1, sessionId, wallAnchor, [], 0, 0, false, []), rs[..k])
                                .(truncated := n != HEADER_SIZE + |EncodeAll(rs[..k])|)
            && |EncodeAll(rs[..k])| <= n - HEADER_SIZE
            && (k < |rs| ==> n - HEADER_SIZE < |EncodeAll(rs[..k + 1])|)
  {
    hide EncodeAll, Whole, Replay, Header, HeaderOk, Start, Empty, ScanFrom;
    var h := Header(sessionId, wallAnchor);
    var cut := (h + EncodeAll(rs))[..n];
    assert cut[..HEADER_SIZE] == h;
    HeaderReads(sessionId, wallAnchor, cut);
    assert cut[HEADER_SIZE..] == EncodeAll(rs)[..n - HEADER_SIZE];
    ScanPrefix(cut, HEADER_SIZE, rs, Empty(cut));
    WholeIsMaximal(rs, n - HEADER_SIZE);
  }

  // ---- what the records mean ---------------------------------------------------------------------

  /** The frames among the records. */
  function FramesOf(rs: seq<Record>): seq<StrokeFrame> {
    if |rs| == 0 then []
    else
      var init, r := rs[..|rs| - 1], rs[|rs| - 1];
      FramesOf(init) + if r.tag == TAG_FRAME && !BadFrame(r) then [Decode(r.payload)] else []
  }

  predicate IsStrokeEnd(r: Record) { r.tag == TAG_STROKE_END && |r.payload| == 8 }

  /** Number of records up to and including the last stroke end. */
  function LastEnd(rs: seq<Record>): (k: nat)
    ensures k <= |rs| && (k > 0 ==> IsStrokeEnd(rs[k - 1]))
    ensures forall i :: k <= i < |rs| ==> !IsStrokeEnd(rs[i])
  {
    if |rs| == 0 then 0
    else if IsStrokeEnd(rs[|rs| - 1]) then |rs| else LastEnd(rs[..|rs| - 1])
  }

  lemma {:induction false} ReplayAppend(out: JournalScan, rs: seq<Record>, r: Record)
    ensures Replay(out, rs + [r]) == Apply(Replay(out, rs), r)
    decreases |rs|
  {
    hide Apply;
    if |rs| == 0 {
      assert (rs + [r])[1..] == [];
    } else {
      assert (rs + [r])[1..] == rs[1..] + [r];
      ReplayAppend(Apply(out, rs[0]), rs[1..], r);
    }
  }

  /** The texts of the notes among the records. */
  function NotesOf(rs: seq<Record>): seq<seq<u8>> {
    if |rs| == 0 then []
    else
      var r := rs[|rs| - 1];
      NotesOf(rs[..|rs| - 1]) + if r.tag == TAG_NOTE then [r.payload] else []
  }

  /** A scan collects frames and notes in order, and remembers the last stroke end: how many frames were
      before it, and the number it names. */
  lemma {:induction false} ReplayMeaning(out: JournalScan, rs: seq<Record>)
    requires out.frames == [] && out.completeCount == 0 && out.notes == []
    ensures Replay(out, rs).frames == FramesOf(rs) && Replay(out, rs).notes == NotesOf(rs)
    ensures Replay(out, rs).completeCount == |FramesOf(rs[..LastEnd(rs)])|
    ensures Replay(out, rs).lastCompleteSeq ==
            if LastEnd(rs) > 0 then GetU64(rs[LastEnd(rs) - 1].payload, 0) else out.lastCompleteSeq
  {
    hide GetU64;
    if |rs| > 0 {
      var init, r := rs[..|rs| - 1], rs[|rs| - 1];
      assert rs == init + [r];
      ReplayAppend(out, init, r);
      ReplayMeaning(out, init);
      if IsStrokeEnd(r) {
        assert rs[..|rs|] == rs;
      } else {
        assert rs[..LastEnd(init)] == init[..LastEnd(init)];
      }
    } else {
      assert rs[..0] == [];
    }
  }

  lemma {:induction false} FramesPrefix(rs: seq<Record>, k: nat)
    requires k <= |rs|
    ensures FramesOf(rs[..k]) <= FramesOf(rs)
  {
    if k < |rs| {
      FramesPrefix(rs[..|rs| - 1], k);
      assert rs[..|rs| - 1][..k] == rs[..k];
    } else {
      assert rs[..k] == rs;
    }
  }

  /** `recoverJournal`: only finished strokes are handed out. */
  method RecoverJournal(table: seq<Word>, data: seq<u8>) returns (r: Option<JournalScan>)
    requires IsTable(table)
    ensures r == if HeaderOk(data) then Some(Recovered(ScanFile(data))) else None
  {
    hide ScanFrom;
    var scanned := Scan(table, data);
    if scanned.None? { return None; }
    var scan := scanned.value;
    if scan.completeCount < |scan.frames| {
      scan := scan.(frames := scan.frames[..scan.completeCount], truncated := true);
    }
    r := Some(scan);
  }

  function Recovered(scan: JournalScan): JournalScan {
    if scan.completeCount < |scan.frames| then scan.(frames := scan.frames[..scan.completeCount], truncated := true)
        else scan
  }

  /** After a crash at any byte, recovery returns exactly the frames up to the last stroke end that
      survived. */
  lemma RecoverCut(sessionId: u64, wallAnchor: u64, rs: seq<Record>, n: nat)
    requires GoodRecords(rs) && HEADER_SIZE <= n <= HEADER_SIZE + |EncodeAll(rs)|
    ensures var cut := (Header(sessionId, wallAnchor) + EncodeAll(rs))[..n];
            var kept := rs[..Whole(rs, n - HEADER_SIZE)];
            && HeaderOk(cut)
            && Recovered(ScanFile(cut)).frames == FramesOf(kept[..LastEnd(kept)])
            && (!Recovered(ScanFile(cut)).truncated <==>
                n == HEADER_SIZE + |EncodeAll(kept)| && FramesOf(kept) == FramesOf(kept[..LastEnd(kept)]))
  {
    hide EncodeAll, Whole, Replay, Header, HeaderOk, ScanFile, FramesOf, LastEnd;
    CutJournal(sessionId, wallAnchor, rs, n);
    var kept := rs[..Whole(rs, n - HEADER_SIZE)];
    var out := JournalScan(1, sessionId, wallAnchor, [], 0, 0, false, []);
    ReplayMeaning(out, kept);
    FramesPrefix(kept, LastEnd(kept));
  }

  // ---- corruption ----------------------------------------------------------------------------------

  /** Good records in front are read through. */
  lemma {:induction false} ScanThrough(data: seq<u8>, i: nat, rs: seq<Record>, out: JournalScan)
    requires GoodRecords(rs) && i + |EncodeAll(rs)| <= |data|
    requires data[i..i + |EncodeAll(rs)|] == EncodeAll(rs)
    ensures ScanFrom(data, i, out) == ScanFrom(data, i + |EncodeAll(rs)|, Replay(out, rs))
    decreases |rs|
  {
    hide EncodeRecord, ReadRecord, Apply;
    if |rs| > 0 {
      var e, rest := EncodeRecord(rs[0]), EncodeAll(rs[1..]);
      assert data[i..i + |e|] == data[i..i + |EncodeAll(rs)|][..|e|] == e;
      ReadWhole(data, i, rs[0]);
      assert data[i + |e|..i + |e| + |rest|] == data[i..i + |EncodeAll(rs)|][|e|..] == rest;
      ScanThrough(data, i + |e|, rs[1..], Apply(out, rs[0]));
    }
  }

  /** A record with one byte of its tag, payload or checksum changed no longer passes the check. */
  lemma ReadCorrupt(data: seq<u8>, i: nat, r: Record, o: nat, v: u8)
    requires Encodable(r) && i + OVERHEAD + |r.payload| <= |data|
    requires o < OVERHEAD + |r.payload| && !(1 <= o < 5) && v != EncodeRecord(r)[o]
    requires data[i..i + OVERHEAD + |r.payload|] == EncodeRecord(r)[o := v]
    ensures ReadRecord(data, i) == None
  {
    hide Crc32, PutCrc, GetCrc, PutLE, GetLE;
    var len, e := |r.payload|, EncodeRecord(r);
    var b := e[o := v];
    assert e[1..5] == PutLE(len, 4);
    assert b[1..5] == e[1..5];
    SubSlice(data, i, OVERHEAD + len, 1, 5);
    LengthField(data, i + 1, len);
    var covered, stored := data[i..i + 5 + len], data[i + 5 + len..i + OVERHEAD + len];
    GetPutCrc(Crc32(Body(r), ZERO));
    if o < 5 + len {
      assert covered == b[..5 + len] == Body(r)[o := v];
      assert stored == b[5 + len..] == e[5 + len..] == PutCrc(Crc32(Body(r), ZERO));
      WrongByteDetected(Body(r), o, v, ZERO);
    } else {
      assert covered == b[..5 + len] == e[..5 + len] == Body(r);
      assert stored == b[5 + len..] == PutCrc(Crc32(Body(r), ZERO))[o - 5 - len := v];
      if GetCrc(stored) == Crc32(covered, ZERO) {
        GetCrcInjective(stored, PutCrc(Crc32(Body(r), ZERO)));
      }
    }
  }

  /** One wrong byte in the tag, payload or checksum of a record stops the scan at that record. */
  lemma CorruptJournal(sessionId: u64, wallAnchor: u64, before: seq<Record>, r: Record, rest: seq<u8>, o: nat, v: u8)
    requires GoodRecords(before) && Encodable(r)
    requires o < OVERHEAD + |r.payload| && !(1 <= o < 5) && v != EncodeRecord(r)[o]
    ensures var data := Header(sessionId, wallAnchor) + EncodeAll(before) + EncodeRecord(r)[o := v] + rest;
            && HeaderOk(data)
            && ScanFile(data) == Replay(JournalScan(1, sessionId, wallAnchor, [], 0, 0, false, []),
               before).(truncated := true)
  {
    hide EncodeAll, EncodeRecord, Replay, Header, HeaderOk, Start, Empty, ReadRecord;
    var h, eb, bad := Header(sessionId, wallAnchor), EncodeAll(before), EncodeRecord(r)[o := v];
    var data := h + eb + bad + rest;
    assert h <= data;
    HeaderReads(sessionId, wallAnchor, data);
    assert data[HEADER_SIZE..HEADER_SIZE + |eb|] == eb;
    ScanThrough(data, HEADER_SIZE, before, Empty(data));
    var i := HEADER_SIZE + |eb|;
    assert data[i..i + OVERHEAD + |r.payload|] == bad;
    ReadCorrupt(data, i, r, o, v);
  }

  /** The numbers from `a` up to but not including `b`. */
  function Range(a: nat, b: nat): (r: seq<nat>)
    ensures |r| == if a < b then b - a else 0
  {
    if a < b then seq(b - a, i requires 0 <= i < b - a => a + i) else []
  }

  /** The sequence numbers skipped between neighbours, in order. */
  function Missing(frames: seq<StrokeFrame>): seq<nat> {
    if |frames| < 2 then []
    else
      var n := |frames| - 1;
      Missing(frames[..n]) + Range(frames[n - 1].seqNo + 1, frames[n].seqNo)
  }

  lemma MissingNext(frames: seq<StrokeFrame>, i: nat)
    requires 1 <= i < |frames|
    ensures Missing(frames[..i + 1]) == Missing(frames[..i]) + Range(frames[i - 1].seqNo + 1, frames[i].seqNo)
  {
    assert frames[..i + 1][..i] == frames[..i];
  }

  lemma {:induction false} MissingPrefix(frames: seq<StrokeFrame>, i: nat)
    requires i <= |frames|
    ensures Missing(frames[..i]) <= Missing(frames)
  {
    if i < |frames| {
      MissingPrefix(frames[..|frames| - 1], i);
      assert frames[..|frames| - 1][..i] == frames[..i];
    } else {
      assert frames[..i] == frames;
    }
  }

  /** A journal misses nothing exactly when no neighbours skip a number. */
  lemma {:induction false} NothingMissing(frames: seq<StrokeFrame>)
    ensures Missing(frames) == [] <==> forall i :: 1 <= i < |frames| ==> frames[i].seqNo <= frames[i - 1].seqNo + 1
  {
    hide Range;
    if |frames| >= 2 {
      var n := |frames| - 1;
      NothingMissing(frames[..n]);
      var last := Range(frames[n - 1].seqNo + 1, frames[n].seqNo);
      assert Missing(frames) == [] <==> Missing(frames[..n]) == [] && last == [];
    }
  }

  /** More gaps than this are not listed. */
  const GAP_LIMIT := 1024

  lemma RangeNext(a: nat, s: nat, b: nat)
    requires a <= s < b
    ensures Range(a, s + 1) == Range(a, s) + [s] && Range(a, s + 1) <= Range(a, b)
  {
  }

  /** `seqGaps`: all skipped numbers, or the first 1025. */
  method SeqGaps(frames: seq<StrokeFrame>) returns (gaps: seq<nat>)
    ensures gaps == if |Missing(frames)| <= GAP_LIMIT then Missing(frames) else Missing(frames)[..GAP_LIMIT + 1]
  {
    hide Missing, Range;
    gaps := [];
    NoneMissing(frames);
    var i := 1;
    while i < |frames|
      invariant 1 <= i && |gaps| <= GAP_LIMIT
      invariant if i <= |frames| then gaps == Missing(frames[..i]) else gaps == Missing(frames)
    {
      ghost var before := gaps;
      var full: bool;
      gaps, full := AddGaps(gaps, frames[i - 1].seqNo + 1, frames[i].seqNo);
      MissingNext(frames, i);
      MissingPrefix(frames, i + 1);
      if full {
        assert gaps <= Missing(frames[..i + 1]) <= Missing(frames);
        return;
      }
      i := i + 1;
    }
    assert i == |frames| ==> frames[..i] == frames;
  }

  lemma NoneMissing(frames: seq<StrokeFrame>)
    ensures (|frames| > 0 ==> Missing(frames[..1]) == []) && (|frames| == 0 ==> Missing(frames) == [])
  {
  }

  /** The numbers between two neighbours, until the list is full. */
  method AddGaps(before: seq<nat>, a: nat, b: nat) returns (gaps: seq<nat>, full: bool)
    requires |before| <= GAP_LIMIT
    ensures if full then |gaps| == GAP_LIMIT + 1 && gaps <= before + Range(a, b)
            else gaps == before + Range(a, b) && |gaps| <= GAP_LIMIT
  {
    hide Range;
    gaps, full := before, false;
    var s := a;
    EmptyRange(a, b);
    while s < b
      invariant a <= s && (s <= b || s == a)
      invariant |gaps| <= GAP_LIMIT && gaps == before + Range(a, s)
      decreases b - s
    {
      RangeNext(a, s, b);
      gaps := gaps + [s];
      if |gaps| > GAP_LIMIT { return gaps, true; }
      s := s + 1;
    }
  }

  lemma EmptyRange(a: nat, b: nat)
    ensures Range(a, a) == [] && (b <= a ==> Range(a, b) == [])
  {
  }
}
