/** Undo (core/src/undo.cpp). A command keeps the tiles it touched as they were before and after; held
    tiles are as good as copies (see `Tiles`), so they are values here. */
module Undo {
  import opened Bytes
  import opened Geometry
  import opened Wrappers

  type Pixels = seq<u8>

  /** Absent tiles are different from transparent ones. */
  type TileMap = map<Coord, Pixels>

  function At(m: TileMap, c: Coord): Option<Pixels> { if c in m then Some(m[c]) else None }

  function Put(m: TileMap, c: Coord, p: Option<Pixels>): TileMap {
    match p case None => m - {c} case Some(pixels) => m[c := pixels]
  }

  datatype Entry = Entry(coord: Coord, before: Option<Pixels>, after: Option<Pixels>)

  /** All tile maps of a document, by layer. */
  type Maps = map<nat, TileMap>

  class Document {
    var maps: Maps

    constructor (maps: Maps)
      ensures this.maps == maps
    {
      this.maps := maps;
    }
  }

  ghost predicate DistinctCoords(es: seq<Entry>) {
    forall i, j :: 0 <= i < j < |es| ==> es[i].coord != es[j].coord
  }

  predicate Touched(es: seq<Entry>, c: Coord) {
    exists i :: 0 <= i < |es| && es[i].coord == c
  }

  /** The two documents differ at most in the given tiles of one layer. */
  ghost predicate DifferOnly(a: Maps, b: Maps, target: nat, es: seq<Entry>) {
    && a.Keys == b.Keys
    && (forall l :: l in a && l != target ==> a[l] == b[l])
    && (target in a ==> forall c :: !Touched(es, c) ==> At(a[target], c) == At(b[target], c))
  }

  /** The entries hold the tiles of `a` and of `b`, and nothing else differs. */
  ghost predicate Links(target: nat, es: seq<Entry>, a: Maps, b: Maps) {
    && target in a && DistinctCoords(es) && DifferOnly(a, b, target, es)
    && forall i :: 0 <= i < |es| ==>
       es[i].before == At(a[target], es[i].coord) && es[i].after == At(b[target], es[i].coord)
  }

  /** What putting back the first `n` entries makes of a tile map. */
  function Restored(m: TileMap, es: seq<Entry>, toBefore: bool): TileMap {
    if |es| == 0 then m
    else
      var e := es[|es| - 1];
      Put(Restored(m, es[..|es| - 1], toBefore), e.coord, if toBefore then e.before else e.after)
  }

  lemma {:induction false} RestoredAt(m: TileMap, es: seq<Entry>, toBefore: bool, c: Coord)
    requires DistinctCoords(es)
    ensures !Touched(es, c) ==> At(Restored(m, es, toBefore), c) == At(m, c)
    ensures forall i :: 0 <= i < |es| && es[i].coord == c ==>
            At(Restored(m, es, toBefore), c) == if toBefore then es[i].before else es[i].after
  {
    var n := |es| - 1;
    if n >= 0 {
      RestoredAt(m, es[..n], toBefore, c);
      if Touched(es[..n], c) {
        var i :| 0 <= i < n && es[..n][i].coord == c;
        assert es[i].coord == c;
      }
      if !Touched(es, c) { assert es[n].coord != c; }
    }
  }

  /** Maps that hold the same at every place are equal. */
  lemma SameEverywhere(a: TileMap, b: TileMap)
    requires forall c :: At(a, c) == At(b, c)
    ensures a == b
  {
    forall c ensures c in a <==> c in b { assert At(a, c) == At(b, c); }
    forall c | c in a ensures a[c] == b[c] { assert At(a, c) == At(b, c); }
  }

  /** Putting back the tiles from before gives the document from before exactly when nothing was painted
      outside the captured tiles. */
  lemma UndoExact(target: nat, es: seq<Entry>, a: Maps, b: Maps)
    requires target in a && target in b && DistinctCoords(es)
    requires forall i :: 0 <= i < |es| ==> es[i].before == At(a[target], es[i].coord)
    ensures b[target := Restored(b[target], es, true)] == a <==> DifferOnly(a, b, target, es)
  {
    hide Restored, Put, DistinctCoords, Touched;
    var r := Restored(b[target], es, true);
    forall c
      ensures (!Touched(es, c) ==> At(r, c) == At(b[target], c)) && (Touched(es, c) ==> At(r, c) == At(a[target], c))
    {
      RestoredAt(b[target], es, true, c);
      if Touched(es, c) { TouchedAt(es, c, a[target]); }
    }
    if DifferOnly(a, b, target, es) {
      SameEverywhere(r, a[target]);
      assert b[target := r] == a;
    }
    if b[target := r] == a {
      assert r == a[target];
      assert forall l :: l in a && l != target ==> a[l] == b[target := r][l];
      assert forall l :: l in b ==> l in b[target := r];
    }
  }

  lemma TouchedAt(es: seq<Entry>, c: Coord, m: TileMap)
    requires Touched(es, c) && forall i :: 0 <= i < |es| ==> es[i].before == At(m, es[i].coord)
    ensures exists i :: 0 <= i < |es| && es[i].coord == c && es[i].before == At(m, c)
  {
    var i :| 0 <= i < |es| && es[i].coord == c;
  }

  /** Both directions, for a command whose painting stayed inside its tiles. */
  lemma UndoRedoExact(target: nat, es: seq<Entry>, a: Maps, b: Maps)
    requires Links(target, es, a, b)
    ensures b[target := Restored(b[target], es, true)] == a
    ensures a[target := Restored(a[target], es, false)] == b
  {
    hide Restored, Put, Touched;
    UndoExact(target, es, a, b);
    var flipped := Flipped(es);
    FlippedRestores(a[target], es);
    assert forall c :: Touched(flipped, c) <==> Touched(es, c) by { FlippedTouches(es); }
    UndoExact(target, flipped, b, a);
  }

  /** Before and after exchanged. */
  function Flipped(es: seq<Entry>): (r: seq<Entry>)
    ensures |r| == |es| && forall i :: 0 <= i < |es| ==> r[i] == Entry(es[i].coord, es[i].after, es[i].before)
  {
    seq(|es|, i requires 0 <= i < |es| => Entry(es[i].coord, es[i].after, es[i].before))
  }

  lemma FlippedTouches(es: seq<Entry>)
    ensures forall c :: Touched(Flipped(es), c) <==> Touched(es, c)
  {
    var r := Flipped(es);
    forall c ensures Touched(r, c) <==> Touched(es, c) {
      if Touched(r, c) {
        var i :| 0 <= i < |r| && r[i].coord == c;
        assert es[i].coord == c;
      }
      if Touched(es, c) {
        var i :| 0 <= i < |es| && es[i].coord == c;
        assert r[i].coord == c;
      }
    }
  }

  lemma {:induction false} FlippedRestores(m: TileMap, es: seq<Entry>)
    ensures Restored(m, Flipped(es), true) == Restored(m, es, false)
  {
    var n := |es| - 1;
    if n >= 0 {
      assert Flipped(es)[..n] == Flipped(es[..n]);
      FlippedRestores(m, es[..n]);
    }
  }

  // ---- one command -----------------------------------------------------------------------------------------

  /** Which of the first `n` captured tiles changed. */
  function Changed(es: seq<Entry>, n: nat): set<nat>
    requires n <= |es|
  {
    set i: nat | i < n && es[i].before != es[i].after
  }

  class TileSnapshotCommand {
    const doc: Document
    const target: nat
    var entries: seq<Entry>

    constructor (doc: Document, target: nat)
      ensures this.doc == doc && this.target == target && entries == []
    {
      this.doc, this.target, entries := doc, target, [];
    }

    /** Everything captured so far is as it was in `a`. */
    ghost predicate Holds(a: Maps)
      reads this
    {
      && target in a && DistinctCoords(entries)
      && forall i :: 0 <= i < |entries| ==> entries[i].before == At(a[target], entries[i].coord)
    }

    /** Tiles known already are skipped; the others must not have been painted yet. */
    method CaptureBefore(tiles: seq<Coord>, ghost a: Maps)
      requires Holds(a) && target in doc.maps
      requires forall c :: c in tiles && !Touched(entries, c) ==> At(doc.maps[target], c) == At(a[target], c)
      modifies this`entries
      ensures Holds(a) && old(entries) <= entries && forall c :: c in tiles ==> Touched(entries, c)
      ensures forall c :: Touched(entries, c) ==> Touched(old(entries), c) || c in tiles
    {
      var k := 0;
      while k < |tiles|
        invariant 0 <= k <= |tiles| && Holds(a) && old(entries) <= entries
        invariant forall j :: 0 <= j < k ==> Touched(entries, tiles[j])
        invariant forall c :: Touched(entries, c) ==> Touched(old(entries), c) || c in tiles
        invariant forall c :: Touched(old(entries), c) ==> Touched(entries, c)
      {
        var known := Known(tiles[k]);
        if !known {
          entries := Extended(entries, Entry(tiles[k], At(doc.maps[target], tiles[k]), None));
        }
        k := k + 1;
      }
    }

    method Known(c: Coord) returns (known: bool)
      ensures known == Touched(entries, c)
    {
      var i := 0;
      while i < |entries|
        invariant 0 <= i <= |entries| && forall j :: 0 <= j < i ==> entries[j].coord != c
      {
        if entries[i].coord == c { return true; }
        i := i + 1;
      }
      return false;
    }

    /** Reads all captured tiles again. If the painting stayed inside them, the command now links the
        document before with the document after. */
    method CaptureAfter(ghost a: Maps)
      requires Holds(a) && target in doc.maps
      modifies this`entries
      ensures Holds(a) && |entries| == |old(entries)| && forall c :: Touched(entries, c) <==> Touched(old(entries), c)
      ensures DifferOnly(a, doc.maps, target, old(entries)) ==> Links(target, entries, a, doc.maps)
    {
      var i := 0;
      while i < |entries|
        invariant 0 <= i <= |entries| == |old(entries)|
        invariant forall j :: 0 <= j < |entries| ==>
                  entries[j].coord == old(entries)[j].coord && entries[j].before == old(entries)[j].before
        invariant forall j :: 0 <= j < i ==> entries[j].after == At(doc.maps[target], entries[j].coord)
      {
        entries := entries[i := entries[i].(after := At(doc.maps[target], entries[i].coord))];
        i := i + 1;
      }
      SameCoords(entries, old(entries));
    }

    /** How many captured tiles really changed. */
    method ChangedTileCount() returns (n: nat)
      ensures n == |Changed(entries, |entries|)|
    {
      n := 0;
      var i := 0;
      while i < |entries|
        invariant 0 <= i <= |entries| && n == |Changed(entries, i)|
      {
        assert Changed(entries, i + 1) == Changed(entries, i) + if entries[i].before != entries[i].after then {i}
               else {};
        if entries[i].before != entries[i].after { n := n + 1; }
        i := i + 1;
      }
    }

    /** `restore`: entry by entry. */
    method Restore(toBefore: bool)
      requires target in doc.maps
      modifies doc
      ensures doc.maps == old(doc.maps)[target := Restored(old(doc.maps)[target], entries, toBefore)]
    {
      var i := 0;
      while i < |entries|
        invariant 0 <= i <= |entries|
                  && doc.maps == old(doc.maps)[target := Restored(old(doc.maps)[target], entries[..i], toBefore)]
      {
        assert entries[..i + 1][..i] == entries[..i];
        var e := entries[i];
        doc.maps := doc.maps[target := Put(doc.maps[target], e.coord, if toBefore then e.before else e.after)];
        i := i + 1;
      }
      assert entries[..i] == entries;
    }
  }

  function Extended(es: seq<Entry>, e: Entry): (r: seq<Entry>)
    ensures r == es + [e]
    ensures forall c :: Touched(r, c) <==> Touched(es, c) || c == e.coord
  {
    var r := es + [e];
    assert r[|es|] == e;
    assert forall c :: Touched(es, c) ==> Touched(r, c) by {
      forall c | Touched(es, c) ensures Touched(r, c) {
        var i :| 0 <= i < |es| && es[i].coord == c;
        assert r[i].coord == c;
      }
    }
    r
  }

  lemma SameCoords(a: seq<Entry>, b: seq<Entry>)
    requires |a| == |b| && forall j :: 0 <= j < |a| ==> a[j].coord == b[j].coord
    ensures forall c :: Touched(a, c) <==> Touched(b, c)
  {
    forall c ensures Touched(a, c) <==> Touched(b, c) {
      if Touched(a, c) {
        var i :| 0 <= i < |a| && a[i].coord == c;
        assert b[i].coord == c;
      }
      if Touched(b, c) {
        var i :| 0 <= i < |b| && b[i].coord == c;
        assert a[i].coord == c;
      }
    }
  }

  // ---- the stack -------------------------------------------------------------------------------------------

  datatype Result = Ok | NotFound

  class UndoStack {
    const doc: Document
    var done: seq<TileSnapshotCommand>
    var undone: seq<TileSnapshotCommand>
    var limit: nat
    /** The states the document can be brought to, in order; the command at `i` leads from state `i` to
        the next. The present one is number `|done|`. */
    ghost var states: seq<Maps>

    /** The commands in order, those undone last to first. */
    ghost function Command(i: nat): TileSnapshotCommand
      requires i < |done| + |undone|
      reads this
    {
      if i < |done| then done[i] else undone[|undone| - 1 - (i - |done|)]
    }

    ghost predicate StepOk(i: nat)
      requires i < |done| + |undone| && |states| == |done| + |undone| + 1
      reads this, done, undone
    {
      var cmd := Command(i);
      cmd.doc == doc && Links(cmd.target, cmd.entries, states[i], states[i + 1])
    }

    ghost predicate Walks()
      reads this, done, undone
    {
      && limit > 0 && |states| == |done| + |undone| + 1
      && forall i :: 0 <= i < |done| + |undone| ==> StepOk(i)
    }

    /** Nobody has painted since the last command. */
    ghost predicate Settled()
      reads this, done, undone, doc
    {
      Walks() && doc.maps == states[|done|]
    }

    /** What the limit is for: no more than so many steps can be undone. */
    predicate Within()
      reads this
    {
      |done| <= limit
    }

    constructor (doc: Document, limit: nat)
      ensures Within()
      ensures Settled() && this.doc == doc && done == [] && undone == []
              && this.limit == (if limit == 0 then 1 else limit)
      ensures states == [doc.maps]
    {
      this.doc, done, undone, this.limit := doc, [], [], if limit == 0 then 1 else limit;
      states := [doc.maps];
    }

    /** A new command discards what was undone; beyond the limit the oldest are forgotten, which only
        shortens the past. */
    method Push(cmd: TileSnapshotCommand)
      requires Walks() && cmd.doc == doc && Links(cmd.target, cmd.entries, states[|done|], doc.maps)
      modifies this
      ensures Settled() && limit == old(limit) && undone == [] && Within()
      ensures var all := old(done) + [cmd]; var past := old(states[..|done| + 1]) + [doc.maps];
              var k := if |all| > limit then |all| - limit else 0;
              done == all[k..] && states == past[k..]
    {
      hide Links;
      undone := [];
      done := done + [cmd];
      states := states[..|done|] + [doc.maps];
      forall i | 0 <= i < |done| ensures StepOk(i) {
        if i < |old(done)| { assert old(StepOk(i)) && old(Command(i)) == done[i]; }
      }
      ghost var all, past := done, states;
      ghost var k := 0;
      while |done| > limit
        invariant 0 <= k <= |all| && done == all[k..] && states == past[k..] && undone == [] && limit == old(limit)
        invariant k > 0 ==> |done| >= limit
        invariant |states| == |done| + 1 && forall i :: 0 <= i < |done| ==> StepOk(i)
        decreases |done|
      {
        k := k + 1;
        DropFirst();
      }
    }

    /** Forgets the oldest command and the oldest state. */
    method DropFirst()
      requires |done| > 0 && |states| == |done| + |undone| + 1 && forall i :: 0 <= i < |done| + |undone| ==> StepOk(i)
      modifies this`done, this`states
      ensures done == old(done)[1..] && states == old(states)[1..]
      ensures forall i :: 0 <= i < |done| + |undone| ==> StepOk(i)
    {
      hide Links;
      done := done[1..];
      states := states[1..];
      forall i | 0 <= i < |done| + |undone| ensures StepOk(i) {
        assert old(StepOk(i + 1)) && old(Command(i + 1)) == Command(i);
      }
    }

    /** A limit of zero is one. What can still be undone is the newest part of what could be; what was
        undone can still be redone. */
    method SetLimit(n: nat)
      requires Settled()
      modifies this
      ensures Settled() && limit == (if n == 0 then 1 else n) && undone == old(undone) && Within()
      ensures var k := if |old(done)| > limit then |old(done)| - limit else 0;
              done == old(done)[k..] && states == old(states)[k..]
    {
      hide Links;
      limit := if n == 0 then 1 else n;
      forall i | 0 <= i < |done| + |undone|
        ensures StepOk(i)
      {
        assert old(StepOk(i)) && old(Command(i)) == Command(i);
      }
      ghost var k := 0;
      while |done| > limit
        invariant 0 <= k <= |old(done)| && done == old(done)[k..] && states == old(states)[k..] && undone == old(undone)
                  && limit == (if n == 0 then 1 else n)
        invariant k > 0 ==> |done| >= limit
        invariant Settled()
        decreases |done|
      {
        k := k + 1;
        DropFirst();
      }
    }

    method Clear()
      requires Settled()
      modifies this
      ensures Settled() && done == [] && undone == [] && limit == old(limit) && states == [doc.maps] && Within()
    {
      done, undone, states := [], [], [doc.maps];
    }

    /** One step back, or nothing. */
    method Undo() returns (r: Result)
      requires Settled()
      modifies this, doc
      ensures old(Within()) ==> Within()
      ensures Settled() && limit == old(limit) && states == old(states)
      ensures r == if |old(done)| == 0 then NotFound else Ok
      ensures r.Ok? ==> |done| == |old(done)| - 1 && doc.maps == old(states[|done| - 1])
      ensures r.Ok? ==> done == old(done)[..|old(done)| - 1] && undone == old(undone) + [old(done)[|old(done)| - 1]]
      ensures r.NotFound? ==> done == old(done) && undone == old(undone) && doc.maps == old(doc.maps)
    {
      hide Links, Restored;
      if |done| == 0 { return NotFound; }
      var n := |done| - 1;
      var cmd := done[n];
      assert StepOk(n) && Command(n) == cmd;
      TargetThere(cmd.target, cmd.entries, states[n], states[n + 1]);
      UndoRedoExact(cmd.target, cmd.entries, states[n], states[n + 1]);
      done := done[..n];
      cmd.Restore(true);
      undone := undone + [cmd];
      forall i | 0 <= i < |done| + |undone|
        ensures StepOk(i)
      {
        assert old(StepOk(i)) && old(Command(i)) == Command(i);
      }
      r := Ok;
    }

    /** One step forward again, or nothing. The limit is not looked at: it is kept exactly if there was
        room below it. */
    method Redo() returns (r: Result)
      requires Settled()
      modifies this, doc
      ensures r.Ok? ==> (Within() <==> |old(done)| < limit)
      ensures Settled() && limit == old(limit) && states == old(states)
      ensures r == if |old(undone)| == 0 then NotFound else Ok
      ensures r.Ok? ==> |done| == |old(done)| + 1 && doc.maps == old(states[|done| + 1])
      ensures r.Ok? ==>
              undone == old(undone)[..|old(undone)| - 1] && done == old(done) + [old(undone)[|old(undone)| - 1]]
      ensures r.NotFound? ==> done == old(done) && undone == old(undone) && doc.maps == old(doc.maps)
    {
      hide Links, Restored;
      if |undone| == 0 { return NotFound; }
      var n := |done|;
      var cmd := undone[|undone| - 1];
      assert StepOk(n) && Command(n) == cmd;
      TargetThere(cmd.target, cmd.entries, states[n], states[n + 1]);
      UndoRedoExact(cmd.target, cmd.entries, states[n], states[n + 1]);
      undone := undone[..|undone| - 1];
      cmd.Restore(false);
      done := done + [cmd];
      forall i | 0 <= i < |done| + |undone|
        ensures StepOk(i)
      {
        assert old(StepOk(i)) && old(Command(i)) == Command(i);
      }
      r := Ok;
    }
  }

  function Backwards<T>(s: seq<T>): seq<T> {
    if |s| == 0 then [] else Backwards(s[1..]) + [s[0]]
  }

  /** Undoing `k` steps visits the recorded states backwards, and redoing `k` steps brings back the same
      document and the same stacks. */
  method UndoThenRedo(s: UndoStack, k: nat)
    requires s.Settled() && k <= |s.done|
    modifies s, s.doc
    ensures s.Settled() && s.doc.maps == old(s.doc.maps) && s.done == old(s.done) && s.undone == old(s.undone)
  {
    hide UndoStack.Walks;
    ghost var d, u := s.done, s.undone;
    var i := 0;
    while i < k
      invariant 0 <= i <= k && s.Settled() && s.states == old(s.states)
      invariant s.done == d[..|d| - i] && s.undone == u + Backwards(d[|d| - i..])
    {
      Backstep(d, u, i);
      var r := s.Undo();
      i := i + 1;
    }
    while i > 0
      invariant 0 <= i <= k && s.Settled() && s.states == old(s.states)
      invariant s.done == d[..|d| - i] && s.undone == u + Backwards(d[|d| - i..])
    {
      Backstep(d, u, i - 1);
      var r := s.Redo();
      i := i - 1;
    }
    assert d[..|d|] == d && u + [] == u;
  }

  // ---- the limit ----------------------------------------------------------------------------------------------

  /** Any run of undo and redo. */
  datatype Step = Back | Forth

  /** Undoing and redoing never has more done than there is in all, so if that fits, the limit holds
      throughout; it is broken only when redoing passes it. */
  method RunSteps(s: UndoStack, steps: seq<Step>)
    requires s.Settled() && s.Within()
    modifies s, s.doc
    ensures s.Settled() && s.limit == old(s.limit) && |s.done| + |s.undone| == old(|s.done| + |s.undone|)
    ensures old(|s.done| + |s.undone|) <= s.limit ==> s.Within()
  {
    hide UndoStack.Settled;
    var i := 0;
    while i < |steps|
      invariant 0 <= i <= |steps| && s.Settled() && s.limit == old(s.limit)
                && |s.done| + |s.undone| == old(|s.done| + |s.undone|)
    {
      match steps[i] {
        case Back => var _ := s.Undo();
        case Forth => var _ := s.Redo();
      }
      i := i + 1;
    }
  }

  /** And if it does not fit, there is such a run: redoing everything. */
  method RedoAll(s: UndoStack)
    requires s.Settled()
    modifies s, s.doc
    ensures s.Settled() && s.limit == old(s.limit) && s.undone == [] && |s.done| == old(|s.done| + |s.undone|)
    ensures s.Within() <==> old(|s.done| + |s.undone|) <= s.limit
  {
    hide UndoStack.Settled;
    while s.undone != []
      invariant s.Settled() && s.limit == old(s.limit) && |s.done| + |s.undone| == old(|s.done| + |s.undone|)
      decreases |s.undone|
    {
      var _ := s.Redo();
    }
  }

  /** A command that touched nothing. */
  method EmptyCommand(doc: Document, target: nat) returns (cmd: TileSnapshotCommand)
    requires target in doc.maps
    ensures fresh(cmd) && cmd.doc == doc && Links(target, cmd.entries, doc.maps, doc.maps) && cmd.target == target
  {
    cmd := new TileSnapshotCommand(doc, target);
  }

  /** A state where that happens, from a new stack: two commands, both undone, the limit lowered to one,
      both redone. */
  method LimitPassed(maps: Maps, target: nat) returns (s: UndoStack)
    requires target in maps
    ensures s.Settled() && s.limit == 1 && |s.done| == 2 && !s.Within()
  {
    hide Links;
    var doc := new Document(maps);
    s := new UndoStack(doc, 2);
    var a := EmptyCommand(doc, target);
    s.Push(a);
    var b := EmptyCommand(doc, target);
    s.Push(b);
    var _ := s.Undo();
    var _ := s.Undo();
    s.SetLimit(1);
    RedoAll(s);
  }

  lemma Backstep<T>(d: seq<T>, u: seq<T>, i: nat)
    requires i < |d|
    ensures var n := |d| - i;
            && d[..n][..n - 1] == d[..n - 1] && d[..n - 1] + [d[n - 1]] == d[..n]
            && u + Backwards(d[n - 1..]) == (u + Backwards(d[n..])) + [d[n - 1]]
  {
    assert d[|d| - i - 1..][1..] == d[|d| - i..];
  }

  lemma TargetThere(target: nat, es: seq<Entry>, a: Maps, b: Maps)
    requires Links(target, es, a, b)
    ensures target in a && target in b
  {
  }
}
