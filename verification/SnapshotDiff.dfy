/** Comparing two snapshots (agent/src/snapshot.cpp, `diffSnapshots`). Tiles are compared by the address
    of their pixel buffer, never pixel by pixel. */
module SnapshotDiff {
  import opened Bytes
  import opened Geometry
  import opened Wrappers
  import F = Forest
  import B = Blend
  import C = Compositor
  import I = Image
  import S = Snapshot

  /** A tile as a snapshot holds it: which buffer, and what is in it. */
  datatype Handle = Handle(buffer: nat, pixels: C.Tile)

  type Handles = map<Coord, Handle>

  datatype Node = Node(id: nat, parent: nat, index: nat, props: F.Props, tiles: Option<Handles>)

  datatype Diff = Diff(changedTiles: nat, area: Rect, added: seq<nat>, removed: seq<nat>, changed: seq<nat>,
    propChanged: seq<nat>) {
    predicate Identical() { changedTiles == 0 && added == [] && removed == [] && changed == [] && propChanged == [] }
  }

  // ---- what is being compared ----------------------------------------------------------------------------------

  /** The node of a layer: the first that has its id. */
  function Find(nodes: seq<Node>, id: nat): (r: Option<Node>)
    ensures r.None? <==> forall k :: 0 <= k < |nodes| ==> nodes[k].id != id
    ensures r.Some? ==> r.value.id == id && r.value in nodes
  {
    if |nodes| == 0 then None else if nodes[0].id == id then Some(nodes[0]) else Find(nodes[1..], id)
  }

  predicate SameProps(a: Node, b: Node) { a.parent == b.parent && a.index == b.index && a.props == b.props }

  predicate Blank(m: Handles, c: Coord) { c !in m || C.IsBlank(m[c].pixels) }

  /** The tile counts as changed: not one buffer, and not blank on both sides. */
  predicate TileDiffers(m: Handles, n: Handles, c: Coord) {
    !(c in m && c in n && m[c].buffer == n[c].buffer) && !(Blank(m, c) && Blank(n, c))
  }

  /** Layer `a` has a node with tiles in `b`, and its tile `c` counts as changed. */
  predicate Differs(b: seq<Node>, a: Node, c: Coord) {
    var n := Find(b, a.id);
    n.Some? && a.tiles.Some? && n.value.tiles.Some? && TileDiffers(a.tiles.value, n.value.tiles.value, c)
  }

  ghost predicate PixelsDiffer(b: seq<Node>, a: Node) { exists c :: Differs(b, a, c) }

  predicate PropsDiffer(b: seq<Node>, a: Node) {
    var n := Find(b, a.id);
    n.Some? && !SameProps(a, n.value)
  }

  predicate Absent(nodes: seq<Node>, n: Node) { Find(nodes, n.id).None? }

  ghost function AbsentFrom(nodes: seq<Node>): (keep: Node -> bool)
    ensures forall n :: keep(n) <==> Absent(nodes, n)
  {
    n => Absent(nodes, n)
  }

  ghost function PropsChanged(b: seq<Node>): (keep: Node -> bool)
    ensures forall n :: keep(n) <==> PropsDiffer(b, n)
  {
    n => PropsDiffer(b, n)
  }

  ghost function PixelsChanged(b: seq<Node>): (keep: Node -> bool)
    ensures forall n :: keep(n) <==> PixelsDiffer(b, n)
  {
    n => PixelsDiffer(b, n)
  }

  /** Ids of the nodes that `keep` picks, in order. */
  ghost function Picked(nodes: seq<Node>, keep: Node -> bool): (r: seq<nat>)
    ensures r == [] <==> forall k :: 0 <= k < |nodes| ==> !keep(nodes[k])
    ensures forall k :: 0 <= k < |nodes| && keep(nodes[k]) ==> nodes[k].id in r
  {
    if |nodes| == 0 then []
    else
      var n := |nodes| - 1;
      Picked(nodes[..n], keep) + if keep(nodes[n]) then [nodes[n].id] else []
  }

  lemma NonePicked(nodes: seq<Node>, keep: Node -> bool)
    ensures Picked(nodes[..0], keep) == []
  {
  }

  lemma PickedNext(nodes: seq<Node>, k: nat, keep: Node -> bool)
    requires k < |nodes|
    ensures Picked(nodes[..k + 1], keep) == Picked(nodes[..k], keep) + if keep(nodes[k]) then [nodes[k].id] else []
  {
    assert nodes[..k + 1][..k] == nodes[..k];
  }

  /** Exactly the changed tiles of the first `k` nodes, each once: node and tile. */
  ghost predicate Counts(a: seq<Node>, b: seq<Node>, k: nat, all: seq<(nat, Coord)>)
    requires k <= |a|
  {
    && (forall i, j :: 0 <= i < j < |all| ==> all[i] != all[j])
    && (forall i: nat, c :: (i, c) in all <==> i < k && Differs(b, a[i], c))
  }

  /** `area` is the smallest box around the tiles of `all`. */
  ghost predicate Boxes(area: Rect, all: seq<(nat, Coord)>) {
    && (forall i :: 0 <= i < |all| ==> Covers(area, all[i].1.CanvasRect()))
    && (forall box: Rect :: (forall i :: 0 <= i < |all| ==> Covers(box, all[i].1.CanvasRect())) ==> Covers(box, area))
  }

  ghost predicate Covers(a: Rect, b: Rect) { forall x, y :: b.Contains(x, y) ==> a.Contains(x, y) }

  lemma UnitedCovers(a: Rect, b: Rect)
    ensures Covers(a.United(b), a) && Covers(a.United(b), b)
  {
  }

  lemma UnitedSmallest(a: Rect, b: Rect, box: Rect)
    requires Covers(box, a) && Covers(box, b)
    ensures Covers(box, a.United(b))
  {
    if !a.IsEmpty() && !b.IsEmpty() {
      assert a.Contains(a.x, a.y) && a.Contains(a.Right() - 1, a.Bottom() - 1);
      assert b.Contains(b.x, b.y) && b.Contains(b.Right() - 1, b.Bottom() - 1);
    }
  }

  lemma BoxGrows(area: Rect, all: seq<(nat, Coord)>, e: (nat, Coord))
    requires Boxes(area, all)
    ensures Boxes(area.United(e.1.CanvasRect()), all + [e])
  {
    hide Covers;
    var r := e.1.CanvasRect();
    var more := all + [e];
    var grown := area.United(r);
    UnitedCovers(area, r);
    forall i | 0 <= i < |more| ensures Covers(grown, more[i].1.CanvasRect()) {
      if i < |all| { CoversTransitive(grown, area, all[i].1.CanvasRect()); }
    }
    forall box: Rect | forall i :: 0 <= i < |more| ==> Covers(box, more[i].1.CanvasRect()) ensures Covers(box, grown) {
      assert more[|all|] == e;
      forall i | 0 <= i < |all| ensures Covers(box, all[i].1.CanvasRect()) { assert more[i] == all[i]; }
      UnitedSmallest(area, r, box);
    }
  }

  lemma CoversTransitive(a: Rect, b: Rect, c: Rect)
    requires Covers(a, b) && Covers(b, c)
    ensures Covers(a, c)
  {
  }

  // ---- the comparison ------------------------------------------------------------------------------------------

  method IdsOf(nodes: seq<Node>, other: seq<Node>) returns (r: seq<nat>)
    ensures r == Picked(nodes, AbsentFrom(other))
  {
    hide Absent;
    r := [];
    ghost var keep := AbsentFrom(other);
    var k := 0;
    while k < |nodes|
      invariant 0 <= k <= |nodes| && r == Picked(nodes[..k], keep)
    {
      PickedNext(nodes, k, keep);
      if Absent(other, nodes[k]) { r := r + [nodes[k].id]; }
      k := k + 1;
    }
    assert nodes[..k] == nodes;
  }

  method Both(m: Handles, n: Handles) returns (r: seq<Coord>)
    ensures forall i, j :: 0 <= i < j < |r| ==> C.Before(r[i], r[j])
    ensures forall c :: c in r <==> c in m || c in n
  {
    var todo := m.Keys + n.Keys;
    r := [];
    while todo != {}
      invariant todo <= m.Keys + n.Keys && forall c :: c in r <==> (c in m || c in n) && c !in todo
      decreases |todo|
    {
      var c :| c in todo;
      r := r + [c];
      todo := todo - {c};
    }
    r := C.DedupDirtyTiles(r);
  }

  /** The tile loop for one layer, node `k` of `a`. */
  method CompareTiles(a: seq<Node>, b: seq<Node>, k: nat, m: Handles, n: Handles, count: nat, area: Rect,
          ghost all: seq<(nat, Coord)>)
    returns (count': nat, area': Rect, changed: bool, ghost all': seq<(nat, Coord)>)
    requires k < |a| && Counts(a, b, k, all) && count == |all| && Boxes(area, all)
    requires a[k].tiles == Some(m) && Find(b, a[k].id).Some? && Find(b, a[k].id).value.tiles == Some(n)
    ensures Counts(a, b, k + 1, all') && count' == |all'| && Boxes(area', all')
    ensures changed <==> PixelsDiffer(b, a[k])
  {
    hide Boxes, Find, Blank, C.Before;
    count', area', changed, all' := count, area, false, all;
    var tb := Both(m, n);
    assert forall c :: Differs(b, a[k], c) <==> TileDiffers(m, n, c);
    forall c | TileDiffers(m, n, c) ensures c in tb { NothingBlank(m, n, c); }
    var j := 0;
    while j < |tb|
      invariant 0 <= j <= |tb| && count' == |all'| && Boxes(area', all')
      invariant forall i, j :: 0 <= i < j < |all'| ==> all'[i] != all'[j]
      invariant forall i: nat, c :: (i, c) in all' <==>
                (i < k && Differs(b, a[i], c)) || (i == k && c in tb[..j] && TileDiffers(m, n, c))
      invariant changed <==> exists c :: c in tb[..j] && TileDiffers(m, n, c)
    {
      var c := tb[j];
      assert tb[..j + 1] == tb[..j] + [c];
      NotYet(tb, j);
      if TileDiffers(m, n, c) {
        count' := count' + 1;
        changed := true;
        BoxGrows(area', all', (k, c));
        area' := area'.United(c.CanvasRect());
        all' := all' + [(k, c)];
      }
      j := j + 1;
    }
    assert tb[..j] == tb;
  }

  lemma NotYet(tb: seq<Coord>, j: nat)
    requires j < |tb| && forall i, j :: 0 <= i < j < |tb| ==> C.Before(tb[i], tb[j])
    ensures tb[j] !in tb[..j]
  {
  }

  lemma NothingBlank(m: Handles, n: Handles, c: Coord)
    requires TileDiffers(m, n, c)
    ensures c in m || c in n
  {
    hide C.IsBlank;
  }

  /** `diffSnapshots`; `all` are the changed tiles it counts. */
  method DiffSnapshots(a: seq<Node>, b: seq<Node>) returns (d: Diff, ghost all: seq<(nat, Coord)>)
    ensures d.added == Picked(b, AbsentFrom(a)) && d.removed == Picked(a, AbsentFrom(b))
    ensures d.propChanged == Picked(a, PropsChanged(b)) && d.changed == Picked(a, PixelsChanged(b))
    ensures Counts(a, b, |a|, all) && d.changedTiles == |all| && Boxes(d.area, all)
  {
    hide Find, PixelsDiffer, PropsDiffer, Absent, AbsentFrom, PropsChanged, PixelsChanged, Picked, Boxes, Counts,
         Differs, SameProps;
    NonePicked(a, PropsChanged(b));
    NonePicked(a, PixelsChanged(b));
    var added := IdsOf(b, a);
    var removed := IdsOf(a, b);
    ghost var props, pixels := PropsChanged(b), PixelsChanged(b);
    var propChanged, changed: seq<nat> := [], [];
    var count, area := 0, Rect(0, 0, 0, 0);
    all := [];
    NothingCounted(a, b);
    var k := 0;
    while k < |a|
      invariant 0 <= k <= |a| && propChanged == Picked(a[..k], props) && changed == Picked(a[..k], pixels)
      invariant Counts(a, b, k, all) && count == |all| && Boxes(area, all)
    {
      PickedNext(a, k, props);
      PickedNext(a, k, pixels);
      var it := Find(b, a[k].id);
      NodeCompared(a, b, k, it);
      if it.Some? {
        if !SameProps(a[k], it.value) { propChanged := propChanged + [a[k].id]; }
        if a[k].tiles.Some? && it.value.tiles.Some? {
          var layerChanged;
          count, area, layerChanged, all :=
            CompareTiles(a, b, k, a[k].tiles.value, it.value.tiles.value, count, area, all);
          if layerChanged { changed := changed + [a[k].id]; }
        } else {
          NoTiles(a, b, k, all);
        }
      } else {
        NoTiles(a, b, k, all);
      }
      k := k + 1;
    }
    assert a[..k] == a;
    d := Diff(count, area, added, removed, changed, propChanged);
  }

  lemma NothingCounted(a: seq<Node>, b: seq<Node>)
    ensures Counts(a, b, 0, []) && Boxes(Rect(0, 0, 0, 0), [])
  {
  }

  lemma NodeCompared(a: seq<Node>, b: seq<Node>, k: nat, it: Option<Node>)
    requires k < |a| && it == Find(b, a[k].id)
    ensures PropsDiffer(b, a[k]) <==> it.Some? && !SameProps(a[k], it.value)
  {
  }

  lemma NoTiles(a: seq<Node>, b: seq<Node>, k: nat, all: seq<(nat, Coord)>)
    requires k < |a| && Counts(a, b, k, all)
    requires var it := Find(b, a[k].id); it.None? || a[k].tiles.None? || it.value.tiles.None?
    ensures Counts(a, b, k + 1, all) && !PixelsDiffer(b, a[k])
  {
    hide Find, TileDiffers;
  }

  // ---- what a difference means ---------------------------------------------------------------------------------

  /** Copy on write keeps a buffer's pixels as long as anyone shares it: one buffer, one picture. */
  ghost predicate Honest(m: Handles, n: Handles) {
    forall c :: c in m && c in n && m[c].buffer == n[c].buffer ==> m[c].pixels == n[c].pixels
  }

  function Pictures(m: Handles): I.Tiles { map c | c in m :: m[c].pixels }

  lemma SameLook(m: Handles, n: Handles, x: int, y: int)
    requires Honest(m, n) && !TileDiffers(m, n, TileOf(x, y))
    ensures I.Visible(Pictures(m), x, y) == I.Visible(Pictures(n), x, y)
  {
    C.IndexInTile(x, y);
  }

  /** No change that can be seen is missed: where a layer looks different, the layer is listed and the
      area reaches there. */
  lemma NothingMissed(a: seq<Node>, b: seq<Node>, d: Diff, all: seq<(nat, Coord)>, k: nat, n: Node, x: int, y: int)
    requires Counts(a, b, |a|, all) && Boxes(d.area, all) && d.changed == Picked(a, PixelsChanged(b))
    requires k < |a| && Find(b, a[k].id) == Some(n) && a[k].tiles.Some? && n.tiles.Some?
    requires Honest(a[k].tiles.value, n.tiles.value)
    requires I.Visible(Pictures(a[k].tiles.value), x, y) != I.Visible(Pictures(n.tiles.value), x, y)
    ensures a[k].id in d.changed && d.area.Contains(x, y)
  {
    hide Find, I.Visible, Pictures, TileDiffers, Honest;
    var c := TileOf(x, y);
    if !TileDiffers(a[k].tiles.value, n.tiles.value, c) {
      SameLook(a[k].tiles.value, n.tiles.value, x, y);
      assert false;
    }
    assert Differs(b, a[k], c) && PixelsDiffer(b, a[k]);
    assert (k, c) in all;
    var i :| 0 <= i < |all| && all[i] == (k, c);
    assert Covers(d.area, all[i].1.CanvasRect()) && c.CanvasRect().Contains(x, y);
  }

  /** `j` is the first node of a layer. */
  predicate FirstOf(nodes: seq<Node>, id: nat, j: nat) {
    j < |nodes| && nodes[j].id == id && forall i :: 0 <= i < j ==> nodes[i].id != id
  }

  /** Another place in the tree, or any property that is not the same. */
  predicate Altered(a: Node, b: Node) { a.parent != b.parent || a.index != b.index || a.props != b.props }

  /** A layer is listed among those with other properties exactly when one of its nodes is altered in the
      first node it has in the second snapshot. */
  lemma PropsListed(a: seq<Node>, b: seq<Node>, d: Diff, id: nat)
    requires d.propChanged == Picked(a, PropsChanged(b))
    ensures id in d.propChanged <==>
            exists k: nat, j: nat :: k < |a| && a[k].id == id && FirstOf(b, id, j) && Altered(a[k], b[j])
  {
    hide Picked, PropsChanged, Altered, PropsDiffer;
    PickedMeans(a, PropsChanged(b), id);
    if id in d.propChanged {
      var k: nat :| k < |a| && a[k].id == id && PropsDiffer(b, a[k]);
      var j := DifferMeans(a[k], b);
    }
    forall k: nat, j: nat | k < |a| && a[k].id == id && FirstOf(b, id, j) && Altered(a[k], b[j])
      ensures id in d.propChanged
    {
      AlteredDiffers(a[k], b, j);
    }
  }

  lemma {:induction false} PickedMeans(nodes: seq<Node>, keep: Node -> bool, id: nat)
    ensures id in Picked(nodes, keep) <==> exists k: nat :: k < |nodes| && nodes[k].id == id && keep(nodes[k])
    decreases |nodes|
  {
    if |nodes| > 0 {
      var n := |nodes| - 1;
      PickedMeans(nodes[..n], keep, id);
      if exists k: nat :: k < n && nodes[..n][k].id == id && keep(nodes[..n][k]) {
        var k: nat :| k < n && nodes[..n][k].id == id && keep(nodes[..n][k]);
        assert nodes[k].id == id && keep(nodes[k]);
      }
    }
  }

  lemma {:induction false} FindsFirst(nodes: seq<Node>, id: nat) returns (j: nat)
    requires Find(nodes, id).Some?
    ensures FirstOf(nodes, id, j) && Find(nodes, id) == Some(nodes[j])
    decreases |nodes|
  {
    if nodes[0].id == id {
      j := 0;
    } else {
      var m := FindsFirst(nodes[1..], id);
      j := m + 1;
      forall i | 0 <= i < j
        ensures nodes[i].id != id
      {
        if i > 0 { assert nodes[i] == nodes[1..][i - 1]; }
      }
    }
  }

  lemma DifferMeans(n: Node, b: seq<Node>) returns (j: nat)
    requires PropsDiffer(b, n)
    ensures FirstOf(b, n.id, j) && Altered(n, b[j])
  {
    hide Find;
    j := FindsFirst(b, n.id);
  }

  lemma AlteredDiffers(n: Node, b: seq<Node>, j: nat)
    requires FirstOf(b, n.id, j) && Altered(n, b[j])
    ensures PropsDiffer(b, n)
  {
    hide Find;
    assert Find(b, n.id).Some?;
    var i := FindsFirst(b, n.id);
    assert i == j;
  }

  /** The layer is the same in both: same place and properties, and every tile shared or blank on both
      sides. */
  ghost predicate Unchanged(b: seq<Node>, a: Node) { !Absent(b, a) && !PropsDiffer(b, a) && !PixelsDiffer(b, a) }

  /** `identical` says exactly that both have the same layers and each is unchanged. */
  lemma IdenticalMeans(a: seq<Node>, b: seq<Node>, d: Diff, all: seq<(nat, Coord)>)
    requires d.added == Picked(b, AbsentFrom(a)) && d.removed == Picked(a, AbsentFrom(b))
    requires d.propChanged == Picked(a, PropsChanged(b)) && d.changed == Picked(a, PixelsChanged(b))
    requires Counts(a, b, |a|, all) && d.changedTiles == |all|
    ensures d.Identical() <==>
            (forall k :: 0 <= k < |a| ==> Unchanged(b, a[k])) && forall k :: 0 <= k < |b| ==> !Absent(a, b[k])
  {
    hide Absent, PropsDiffer, Differs, Picked, AbsentFrom, PropsChanged, PixelsChanged;
    if all != [] {
      var e := all[0];
      assert (e.0, e.1) in all;
      assert Differs(b, a[e.0], e.1) && PixelsDiffer(b, a[e.0]);
    }
  }

  /** The price of comparing addresses: a tile rewritten with its own pixels in a new buffer is counted,
      although nothing can be seen. */
  lemma SamePixelsCounted()
    ensures exists a: Node, b: Node, c: Coord ::
              && a.id == b.id && SameProps(a, b) && a.tiles.Some? && b.tiles.Some?
                 && Honest(a.tiles.value, b.tiles.value)
              && Pictures(a.tiles.value) == Pictures(b.tiles.value) && Differs([b], a, c)
  {
    var ink: C.Tile := seq(TILE_PIXELS, i => B.Pixel(0, 0, 0, 255));
    assert ink[0].a != 0;
    var c := Coord(0, 0);
    var props := F.Props("", 1.0, 0, true, false, false);
    var a := Node(1, 0, 0, props, Some(map[c := Handle(1, ink)]));
    var b := Node(1, 0, 0, props, Some(map[c := Handle(2, ink)]));
    assert Find([b], 1) == Some(b);
    assert Pictures(a.tiles.value) == Pictures(b.tiles.value);
    assert Differs([b], a, c);
  }

  // ---- recordings of one tree ------------------------------------------------------------------------------

  /** How a recorded tile is held: which buffer it is, and what is in it. */
  type Holder = (nat, Coord, seq<u8>) -> Handle

  /** A node of a recording as the comparison sees it. Groups have no tiles. */
  function AsHeld(n: S.Node, holder: Holder): Node {
    Node(n.id, n.parent, n.index, n.props,
         if n.kind == F.Raster then Some(map c | c in n.tiles :: holder(n.id, c, n.tiles[c])) else None)
  }

  function AllHeld(nodes: seq<S.Node>, holder: Holder): (r: seq<Node>)
    ensures |r| == |nodes| && forall k :: 0 <= k < |nodes| ==> r[k] == AsHeld(nodes[k], holder)
  {
    seq(|nodes|, k requires 0 <= k < |nodes| => AsHeld(nodes[k], holder))
  }

  /** The recorded index of a node is its place among its siblings. */
  lemma PlaceIs(nodes: seq<S.Node>, k: nat)
    requires k < |nodes| && S.IndexCounts(nodes, k)
    ensures var list := S.Recorded(nodes, nodes[k].parent);
            nodes[k].index < |list| && list[nodes[k].index] == nodes[k].id
  {
    hide S.Recorded;
    var p := nodes[k].parent;
    assert nodes == (nodes[..k] + [nodes[k]]) + nodes[k + 1..];
    S.RecordedJoin(nodes[..k] + [nodes[k]], nodes[k + 1..], p);
    S.RecordedJoin(nodes[..k], [nodes[k]], p);
    OneRecorded(nodes[k]);
  }

  lemma OneRecorded(n: S.Node)
    ensures S.Recorded([n], n.parent) == [n.id]
  {
    assert [n][..0] == [];
  }

  /** Two recordings of one tree have the same node for every layer. */
  lemma SameNode(s: F.Shape, rank: F.Id -> nat, a: seq<S.Node>, b: seq<S.Node>, k: nat, j: nat)
    requires F.Coherent(s, rank) && S.WellFormed(a) && S.WellFormed(b) && S.Matches(s, a) && S.Matches(s, b)
    requires k < |a| && j < |b| && a[k].id == b[j].id
    ensures a[k].parent == b[j].parent && a[k].index == b[j].index && a[k].kind == b[j].kind && a[k].props == b[j].props
    ensures a[k].kind == F.Raster ==> a[k].tiles == b[j].tiles
  {
    hide F.Coherent, S.Recorded, S.IndexCounts;
    assert S.Stands(s, a[k]) && S.Stands(s, b[j]);
    var p := a[k].parent;
    PlaceIs(a, k);
    PlaceIs(b, j);
    F.ParentAt(s, rank, a[k].id);
    F.ListAt(s, rank, p);
    assert S.Recorded(a, p) == F.Kids(s, p) == S.Recorded(b, p);
  }

  lemma FoundOnce(nodes: seq<Node>, j: nat)
    requires j < |nodes| && forall i, k :: 0 <= i < k < |nodes| ==> nodes[i].id != nodes[k].id
    ensures Find(nodes, nodes[j].id) == Some(nodes[j])
  {
    var n := Find(nodes, nodes[j].id);
    var i :| 0 <= i < |nodes| && nodes[i] == n.value;
  }

  lemma SameHeld(s: F.Shape, rank: F.Id -> nat, a: seq<S.Node>, b: seq<S.Node>, holder: Holder, k: nat)
    requires F.Coherent(s, rank) && S.WellFormed(a) && S.WellFormed(b) && S.Matches(s, a) && S.Matches(s, b) && k < |a|
    ensures Unchanged(AllHeld(b, holder), AsHeld(a[k], holder))
  {
    hide F.Coherent, S.Recorded, S.ParentFirst, S.IndexCounts, S.Stands, AllHeld, Find;
    assert a[k].id in S.Ids(b);
    var j :| 0 <= j < |b| && b[j].id == a[k].id;
    SameNode(s, rank, a, b, k, j);
    FoundOnce(AllHeld(b, holder), j);
    assert AsHeld(a[k], holder) == AsHeld(b[j], holder);
    forall c ensures !Differs(AllHeld(b, holder), AsHeld(a[k], holder), c) {
    }
  }

  /** Recordings of one tree, in whatever order they were made, differ in nothing: comparing them gives
      `identical`. So comparing the recording a restore started from with one made right after it does. */
  lemma OneTreeIdentical(s: F.Shape, rank: F.Id -> nat, a: seq<S.Node>, b: seq<S.Node>, holder: Holder, d: Diff,
          all: seq<(nat, Coord)>)
    requires F.Coherent(s, rank) && S.WellFormed(a) && S.WellFormed(b) && S.Matches(s, a) && S.Matches(s, b)
    requires var x, y := AllHeld(a, holder), AllHeld(b, holder);
             && d.added == Picked(y, AbsentFrom(x)) && d.removed == Picked(x, AbsentFrom(y))
             && d.propChanged == Picked(x, PropsChanged(y)) && d.changed == Picked(x, PixelsChanged(y))
             && Counts(x, y, |x|, all) && d.changedTiles == |all|
    ensures d.Identical()
  {
    hide F.Coherent, S.WellFormed, S.Matches, Unchanged, Absent, Counts, Picked;
    var x, y := AllHeld(a, holder), AllHeld(b, holder);
    forall k | 0 <= k < |x| ensures Unchanged(y, x[k]) { SameHeld(s, rank, a, b, holder, k); }
    forall k | 0 <= k < |y| ensures !Absent(x, y[k]) {
      SameHeld(s, rank, b, a, holder, k);
      PresentIs(x, y[k]);
    }
    IdenticalMeans(x, y, d, all);
  }

  lemma PresentIs(nodes: seq<Node>, n: Node)
    requires Unchanged(nodes, n)
    ensures !Absent(nodes, n)
  {
  }
}
