/** Restoring a document snapshot (agent/src/snapshot.cpp): newer layers go, then every recorded layer is
    moved or reattached to its place, parents first. */
module Restore {
  import opened Forest
  import opened Layers
  import opened Snapshot

  /** The recorded layer objects still exist, kept alive by the snapshot if by nothing else. */
  ghost predicate Alive(s: Shape, nodes: seq<Node>) {
    forall k :: 0 <= k < |nodes| ==> nodes[k].id in s.store && s.store[nodes[k].id].kind == nodes[k].kind
  }

  // ---- when restoring works ------------------------------------------------------------------------

  /** The layers that stay when newer ones go: recorded, with nothing newer above. */
  ghost function Kept(s: Shape, ids: set<Id>): set<Id> {
    set y | y in s.parents && y in ids && forall a :: Below(s.parents, y, a) ==> a in ids
  }

  /** From node `k` on, with `att` attached: a layer whose turn comes is attached, or what its lists name
      is a tree of recorded layers none of which is attached. */
  ghost predicate Fits(store: map<Id, Layer>, nodes: seq<Node>, k: nat, att: set<Id>)
    requires k <= |nodes|
    decreases |nodes| - k
  {
    if k == |nodes| then true
    else if nodes[k].id in att then Fits(store, nodes, k + 1, att)
    else
      var t := Named(store, nodes[k].id);
      t !! att && Single(store, t) && t <= Ids(nodes) && Fits(store, nodes, k + 1, att + t)
  }

  /** The condition of restoring, on the tree as it is before. */
  ghost predicate Restorable(s: Shape, nodes: seq<Node>) {
    Fits(s.store, nodes, 0, Kept(s, Ids(nodes)))
  }

  // ---- newer layers go --------------------------------------------------------------------------------

  /** Every layer is on the list behind its parent. */
  ghost predicate ParentsBefore(s: Shape, p: Id, ids: seq<Id>) {
    forall j :: 0 <= j < |ids| ==>
        ids[j] in s.parents && (s.parents[ids[j]] == p || BeforeIn(ids, j, s.parents[ids[j]]))
  }

  predicate BeforeIn(ids: seq<Id>, j: nat, y: Id)
    requires j <= |ids|
  {
    exists m :: 0 <= m < j && ids[m] == y
  }

  lemma ParentsBeforeStep(s: Shape, p: Id, ids: seq<Id>, c: Id, sub: seq<Id>)
    requires ParentsBefore(s, p, ids) && c in s.parents && s.parents[c] == p && ParentsBefore(s, c, sub)
    ensures ParentsBefore(s, p, ids + [c] + sub)
  {
    var all := ids + [c] + sub;
    forall j | 0 <= j < |all|
      ensures all[j] in s.parents && (s.parents[all[j]] == p || BeforeIn(all, j, s.parents[all[j]]))
    {
      if j < |ids| {
        if s.parents[ids[j]] != p {
          var m :| 0 <= m < j && ids[m] == s.parents[ids[j]];
          assert all[m] == ids[m];
        }
      } else if j > |ids| {
        var i := j - |ids| - 1;
        assert all[|ids|] == c;
        if s.parents[sub[i]] != c {
          var m :| 0 <= m < i && sub[m] == s.parents[sub[i]];
          assert all[|ids| + 1 + m] == sub[m];
        }
      }
    }
  }

  /** Whatever is above a layer comes before it. */
  lemma {:induction false} AboveBefore(s: Shape, ids: seq<Id>, j: nat, a: Id)
    requires ParentsBefore(s, NO_LAYER, ids) && j < |ids| && Below(s.parents, ids[j], a)
    ensures BeforeIn(ids, j, a)
    decreases j
  {
    hide Below;
    BelowStep(s.parents, ids[j], a);
    var m :| 0 <= m < j && ids[m] == s.parents[ids[j]];
    if ids[m] != a { AboveBefore(s, ids, m, a); }
  }

  method CollectIds(tree: LayerTree, list: seq<Id>, p: Id, out: seq<Id>, ghost bound: nat)
    returns (res: seq<Id>, ghost own: seq<Id>, ghost d: set<Id>)
    requires tree.Valid() && Owner(tree.View(), p) && list == Kids(tree.View(), p)
    requires forall j :: 0 <= j < |list| ==> tree.rank(list[j]) < bound
    ensures res == out + own && ParentsBefore(tree.View(), p, own)
    ensures Hangs(tree.View(), tree.rank, p, |list|, d) && forall y :: y in d ==> y in own
    decreases bound
  {
    hide Coherent, Hangs, ParentsBefore;
    ghost var s := tree.View();
    res, own, d := out, [], {};
    NothingHangs(s, tree.rank, p);
    var i := 0;
    while i < |list|
      invariant 0 <= i <= |list| && res == out + own && ParentsBefore(s, p, own)
      invariant Hangs(s, tree.rank, p, i, d) && forall y :: y in d ==> y in own
    {
      KidAt(s, tree.rank, p, i);
      res := res + [list[i]];
      ghost var sub, dc;
      res, sub, dc := CollectIds(tree, tree.store[list[i]].children, list[i], res, tree.rank(list[i]));
      HangsStep(s, tree.rank, p, i, d, dc);
      ParentsBeforeStep(s, p, own, list[i], sub);
      own := own + [list[i]] + sub;
      d := d + {list[i]} + dc;
      i := i + 1;
    }
  }

  lemma NothingHangs(s: Shape, rank: Id -> nat, p: Id)
    ensures Hangs(s, rank, p, 0, {}) && ParentsBefore(s, p, [])
  {
  }

  /** Lists of layers that are not attached are as they were. */
  ghost predicate Frozen(was: map<Id, Layer>, s: Shape) {
    was.Keys == s.store.Keys && forall y :: y in was && y !in s.parents ==> s.store[y].children == was[y].children
  }

  /** `s` is `s0` after the newer ones of the first `i` layers went. */
  ghost predicate Pruned(s0: Shape, ids: seq<Id>, i: nat, wanted: set<Id>, s: Shape)
    requires i <= |ids|
  {
    && SameButLists(s0.store, s.store)
    && (forall y :: y in s.parents ==> y in s0.parents && s.parents[y] == s0.parents[y])
    && Kept(s0, wanted) <= s.parents.Keys
    && (forall j :: 0 <= j < i ==> ids[j] in wanted || ids[j] !in s.parents)
    && (forall y :: y in s0.store && s.store[y].children != s0.store[y].children ==>
       y in s.parents && LostChild(s0, ids, i, y))
  }

  ghost predicate LostChild(s0: Shape, ids: seq<Id>, i: nat, y: Id)
    requires i <= |ids|
  {
    exists m :: 0 <= m < i && ids[m] in s0.parents && s0.parents[ids[m]] == y
  }

  lemma {:induction false} BelowMore(a: map<Id, Id>, b: map<Id, Id>, y: Id, x: Id)
    requires Below(a, y, x) && forall c :: c in a ==> c in b && b[c] == a[c]
    ensures Below(b, y, x)
  {
    var path :| IsPath(a, path) && path[0] == y && path[|path| - 1] == x;
    forall i | 0 <= i < |path| - 1 ensures StepsUp(b, path, i) { assert StepsUp(a, path, i); }
    assert IsPath(b, path);
  }

  lemma NothingPruned(s0: Shape, ids: seq<Id>, wanted: set<Id>)
    ensures Pruned(s0, ids, 0, wanted, s0)
  {
    hide Below;
  }

  lemma PrunedSkip(s0: Shape, ids: seq<Id>, i: nat, wanted: set<Id>, s: Shape)
    requires i < |ids| && Pruned(s0, ids, i, wanted, s) && (ids[i] in wanted || ids[i] !in s.parents)
    ensures Pruned(s0, ids, i + 1, wanted, s)
  {
    hide Kept;
    forall y | y in s0.store && s.store[y].children != s0.store[y].children ensures LostChild(s0, ids, i + 1, y) {
      assert LostChild(s0, ids, i, y);
    }
  }

  lemma PrunedNext(s0: Shape, ids: seq<Id>, i: nat, wanted: set<Id>, s: Shape, rank: Id -> nat, s': Shape)
    requires ParentsBefore(s0, NO_LAYER, ids) && i < |ids| && Pruned(s0, ids, i, wanted, s) && Coherent(s, rank)
    requires ids[i] !in wanted && ids[i] in s.parents && Removed(s, ids[i], s')
    ensures Pruned(s0, ids, i + 1, wanted, s')
  {
    hide Coherent, Below, Without, Sub, Kept, ParentsBefore, LostChild, SameButLists;
    KeptSpared(s0, wanted, s, ids[i]);
    PruneChain(s0.store, s.store, s'.store);
    forall y | y in s0.store && s'.store[y].children != s0.store[y].children
      ensures y in s'.parents && LostChild(s0, ids, i + 1, y)
    {
      PrunedList(s0, ids, i, wanted, s, rank, s', y);
    }
  }

  lemma PrunedList(s0: Shape, ids: seq<Id>, i: nat, wanted: set<Id>, s: Shape, rank: Id -> nat, s': Shape, y: Id)
    requires ParentsBefore(s0, NO_LAYER, ids) && i < |ids| && Pruned(s0, ids, i, wanted, s) && Coherent(s, rank)
    requires ids[i] !in wanted && ids[i] in s.parents && Removed(s, ids[i], s')
    requires y in s0.store && y in s.store && y in s'.store && s'.store[y].children != s0.store[y].children
    ensures y in s'.parents && LostChild(s0, ids, i + 1, y)
  {
    hide Coherent, Below, Without, Sub, Kept, ParentsBefore;
    var x := ids[i];
    ParentOutside(s, rank, x);
    assert Kids(s', y) == if y == s.parents[x] then Without(Kids(s, y), x) else Kids(s, y);
    if y == s.parents[x] {
      assert ids[i] in s0.parents;
    } else {
      assert LostChild(s0, ids, i, y);
      if y in Sub(s, x) { LostAbove(s0, ids, i, wanted, s, x, y); }
    }
  }

  lemma PruneChain(a: map<Id, Layer>, b: map<Id, Layer>, c: map<Id, Layer>)
    requires SameButLists(a, b) && SameButLists(b, c)
    ensures SameButLists(a, c) && a.Keys == b.Keys == c.Keys
  {
    forall y | y in a ensures c[y].(children := a[y].children) == a[y] {
      assert b[y].(children := a[y].children) == a[y] && c[y].(children := b[y].children) == b[y];
      assert c[y].(children := a[y].children) == b[y].(children := a[y].children);
    }
  }

  lemma ParentOutside(s: Shape, rank: Id -> nat, x: Id)
    requires Coherent(s, rank) && x in s.parents
    ensures s.parents[x] !in Sub(s, x) && (s.parents[x] == NO_LAYER || s.parents[x] in s.parents)
    ensures NO_LAYER !in s.store && x != NO_LAYER
  {
    hide Coherent, Sub;
    ParentAt(s, rank, x);
    RootNotStored(s, rank);
    SubIsSub(s, rank, x);
    TopOfSub(s, rank, x, Sub(s, x));
  }

  /** What may stay has nothing newer above it, so it is never below what goes. */
  lemma KeptSpared(s0: Shape, wanted: set<Id>, s: Shape, x: Id)
    requires (forall y :: y in s.parents ==> y in s0.parents && s.parents[y] == s0.parents[y]) && x !in wanted
    ensures Kept(s0, wanted) !! Sub(s, x) && (x in s.parents ==> x in Sub(s, x))
  {
    hide Below;
    forall y | y in Sub(s, x) ensures y !in Kept(s0, wanted) {
      if y != x { BelowMore(s.parents, s0.parents, y, x); }
    }
  }

  /** A layer below `x` cannot have lost a child yet: `x` comes before that child, and would be gone. */
  lemma LostAbove(s0: Shape, ids: seq<Id>, i: nat, wanted: set<Id>, s: Shape, x: Id, y: Id)
    requires ParentsBefore(s0, NO_LAYER, ids) && i < |ids| && x !in wanted && x in s.parents && y in Sub(s, x)
             && LostChild(s0, ids, i, y)
    requires (forall c :: c in s.parents ==> c in s0.parents && s.parents[c] == s0.parents[c])
    requires x != NO_LAYER && y != NO_LAYER
    ensures exists m :: 0 <= m < i && ids[m] == x
  {
    hide Below;
    var m :| 0 <= m < i && ids[m] in s0.parents && s0.parents[ids[m]] == y;
    if y != x { BelowMore(s.parents, s0.parents, y, x); }
    BelowStep(s0.parents, ids[m], x);
    AboveBefore(s0, ids, m, x);
  }

  /** At the end exactly the layers stay that may, and lists of the others are as they were. */
  lemma PrunedAll(s0: Shape, rank0: Id -> nat, ids: seq<Id>, wanted: set<Id>, s: Shape, rank: Id -> nat)
    requires Coherent(s0, rank0) && Pruned(s0, ids, |ids|, wanted, s) && Coherent(s, rank)
             && forall y :: y in s0.parents ==> y in ids
    ensures s.parents.Keys == Kept(s0, wanted) && Frozen(s0.store, s)
  {
    hide Coherent, Below, Kept, LostChild;
    forall y | y in s.parents ensures y in Kept(s0, wanted) {
      StaysWanted(ids, wanted, s, y);
      forall a | Below(s0.parents, y, a) ensures a in wanted {
        StillAbove(s0, s, rank, y, a);
        StaysWanted(ids, wanted, s, a);
      }
      IsKept(s0, rank0, wanted, y);
    }
  }

  lemma StaysWanted(ids: seq<Id>, wanted: set<Id>, s: Shape, y: Id)
    requires (forall j :: 0 <= j < |ids| ==> ids[j] in wanted || ids[j] !in s.parents) && y in s.parents && y in ids
    ensures y in wanted
  {
  }

  lemma IsKept(s0: Shape, rank0: Id -> nat, wanted: set<Id>, y: Id)
    requires y in s0.parents && y in wanted && forall a :: Below(s0.parents, y, a) ==> a in wanted
    ensures y in Kept(s0, wanted)
  {
    hide Below;
  }

  /** An attached layer has everything above it that it had. */
  lemma StillAbove(s0: Shape, s: Shape, rank: Id -> nat, y: Id, a: Id)
    requires Coherent(s, rank) && (forall c :: c in s.parents ==> c in s0.parents && s.parents[c] == s0.parents[c])
    requires y in s.parents && Below(s0.parents, y, a)
    ensures a in s.parents && a in s0.parents && Below(s.parents, y, a)
    decreases |s.parents.Keys|, 0
  {
    hide Coherent;
    var path :| IsPath(s0.parents, path) && path[0] == y && path[|path| - 1] == a;
    StillPath(s0, s, rank, path, |path| - 1);
    forall i | 0 <= i < |path| - 1 ensures StepsUp(s.parents, path, i) {
      StillPath(s0, s, rank, path, i);
      assert StepsUp(s0.parents, path, i);
    }
    assert IsPath(s.parents, path);
  }

  lemma {:induction false} StillPath(s0: Shape, s: Shape, rank: Id -> nat, path: seq<Id>, i: nat)
    requires Coherent(s, rank) && (forall c :: c in s.parents ==> c in s0.parents && s.parents[c] == s0.parents[c])
    requires IsPath(s0.parents, path) && path[0] in s.parents && i < |path|
    ensures path[i] in s.parents
  {
    hide Coherent;
    if i > 0 {
      StillPath(s0, s, rank, path, i - 1);
      assert StepsUp(s0.parents, path, i - 1);
      ParentAt(s, rank, path[i - 1]);
    }
  }

  method Wanted(nodes: seq<Node>) returns (w: set<Id>)
    ensures w == Ids(nodes)
  {
    w := {};
    var i := 0;
    while i < |nodes|
      invariant 0 <= i <= |nodes| && w == Ids(nodes[..i])
    {
      assert nodes[..i + 1] == nodes[..i] + [nodes[i]];
      IdsJoin(nodes[..i], [nodes[i]]);
      OneNode(nodes[i]);
      w := w + {nodes[i].id};
      i := i + 1;
    }
    assert nodes[..i] == nodes;
  }

  /** Step 1 of `restoreSnapshot`: newer layers go, with everything below them. */
  method RemoveNewer(tree: LayerTree, snap: DocSnapshot) returns (r: Result<()>)
    requires tree.Valid()
    modifies tree
    ensures r.Ok? && tree.Valid() && tree.index == Kept(old(tree.View()), Ids(snap.nodes))
    ensures SameButLists(old(tree.store), tree.store) && Frozen(old(tree.store), tree.View())
  {
    hide Coherent, Ids, Pruned, Hangs, Kept, SameButLists, Frozen, ParentsBefore, InRange;
    ghost var s0, rank0 := tree.View(), tree.rank;
    var wanted := Wanted(snap.nodes);
    ghost var bound := RankBound(s0, rank0);
    var present;
    ghost var own, d;
    present, own, d := CollectIds(tree, tree.roots, NO_LAYER, [], bound);
    assert present == own;
    AllBelow(s0, rank0, d);
    NothingPruned(s0, present, wanted);
    var i := 0;
    while i < |present|
      invariant 0 <= i <= |present| && tree.Valid() && Pruned(s0, present, i, wanted, tree.View())
    {
      RemoveIfNewer(tree, present, i, wanted, s0);
      i := i + 1;
    }
    PrunedAll(s0, rank0, present, wanted, tree.View(), tree.rank);
    PrunedSame(s0, present, |present|, wanted, tree.View());
    r := Ok(());
  }

  lemma PrunedSame(s0: Shape, ids: seq<Id>, i: nat, wanted: set<Id>, s: Shape)
    requires i <= |ids| && Pruned(s0, ids, i, wanted, s)
    ensures SameButLists(s0.store, s.store)
  {
  }

  lemma RankBound(s: Shape, rank: Id -> nat) returns (bound: nat)
    requires Coherent(s, rank)
    ensures forall j :: 0 <= j < |s.roots| ==> rank(s.roots[j]) < bound
  {
    hide Coherent;
    bound := 0;
    if s.parents.Keys != {} {
      var top := Highest(s.parents.Keys, rank);
      bound := rank(top) + 1;
    }
    RootsBounded(s, rank, bound);
  }

  /** One turn of the loop: what is newer and still there is removed. */
  method RemoveIfNewer(tree: LayerTree, present: seq<Id>, i: nat, wanted: set<Id>, ghost s0: Shape)
    requires tree.Valid() && i < |present| && ParentsBefore(s0, NO_LAYER, present)
             && Pruned(s0, present, i, wanted, tree.View())
    modifies tree
    ensures tree.Valid() && Pruned(s0, present, i + 1, wanted, tree.View())
  {
    hide Coherent, Pruned, ParentsBefore, Removed, InRange, Whole, Named, Sub;
    ghost var s, rank := tree.View(), tree.rank;
    if present[i] !in wanted && present[i] in tree.index {
      var r := tree.Remove(present[i]);
      PrunedNext(s0, present, i, wanted, s, rank, tree.View());
    } else {
      PrunedSkip(s0, present, i, wanted, s);
    }
  }

  // ---- recorded layers to their places ----------------------------------------------------------------

  /** How far the restoration has come: the first `k` nodes stand, and lead every list. */
  ghost predicate Progress(s: Shape, nodes: seq<Node>, k: nat) {
    && k <= |nodes| && Alive(s, nodes)
    && (forall j :: 0 <= j < k ==> Stands(s, nodes[j]))
    && (forall p :: Owner(s, p) ==> Recorded(nodes[..k], p) <= Kids(s, p))
  }

  /** `s'` is `s` with `id` put into the list of `p`, out of whatever list it was in; `pm` are the parents
      of what came with it. */
  ghost predicate Placed(s: Shape, id: Id, p: Id, at: int, pm: map<Id, Id>, s': Shape) {
    && s'.parents == s.parents + pm[id := p] && SameButLists(s.store, s'.store) && pm.Keys !! s.parents.Keys
       && id !in pm
    && forall q ::
         var rest := if id in s.parents && q == s.parents[id] then Without(Kids(s, q), id) else Kids(s, q);
         Kids(s', q) == if q == p then InsertAt(rest, ClampIndex(at, |rest|), id) else rest
  }

  lemma MovedIsPlaced(s: Shape, id: Id, p: Id, at: int, s': Shape)
    requires id in s.parents && MovedTo(s, id, p, at, s')
    ensures Placed(s, id, p, at, map[], s')
  {
    hide Without, InsertAt, SameButLists;
    var none: map<Id, Id> := map[];
    assert s.parents + none[id := p] == s.parents[id := p];
  }

  lemma InsertedIsPlaced(s: Shape, rank: Id -> nat, id: Id, pm: map<Id, Id>, p: Id, at: int)
    requires Coherent(s, rank) && Owner(s, p) && id !in s.parents && pm.Keys !! s.parents.Keys && id !in pm
    ensures (forall c :: c in s.parents ==> c in s.store)
            && Placed(s, id, p, at, pm, Inserted(s, id, pm, p, ClampIndex(at, |Kids(s, p)|)))
  {
    hide Without, InsertAt, Coherent;
    AllStored(s, rank);
    RootNotStored(s, rank);
  }

  lemma {:induction false} PrefixWithout(list: seq<Id>, pre: seq<Id>, x: Id)
    requires pre <= list && x !in pre
    ensures pre <= Without(list, x)
  {
    if |pre| > 0 {
      assert pre[1..] <= list[1..];
      PrefixWithout(list[1..], pre[1..], x);
    }
  }

  lemma {:induction false} RecordedAre(nodes: seq<Node>, p: Id, c: Id)
    ensures c in Recorded(nodes, p) <==> exists k :: 0 <= k < |nodes| && nodes[k].id == c && nodes[k].parent == p
  {
    var n := |nodes| - 1;
    if n >= 0 {
      RecordedAre(nodes[..n], p, c);
      if c in Recorded(nodes[..n], p) {
        var k :| 0 <= k < n && nodes[..n][k].id == c && nodes[..n][k].parent == p;
        assert nodes[k].id == c;
      }
    }
  }

  /** No node before `k` is recorded below a layer that is not one of them. */
  lemma NoneBelow(nodes: seq<Node>, k: nat, q: Id)
    requires WellFormed(nodes) && k <= |nodes| && q != NO_LAYER && forall j :: 0 <= j < k ==> nodes[j].id != q
    ensures Recorded(nodes[..k], q) == []
  {
    hide Recorded, IndexCounts;
    forall j | 0 <= j < k ensures nodes[..k][j].parent != q { assert ParentFirst(nodes, j); }
    RecordedNone(nodes[..k], q);
  }

  /** No node before `k` is node `k`. */
  lemma NotYet(nodes: seq<Node>, k: nat, q: Id)
    requires WellFormed(nodes) && k < |nodes|
    ensures nodes[k].id !in Recorded(nodes[..k], q) && nodes[k].parent != nodes[k].id
  {
    hide Recorded, IndexCounts;
    RecordedAre(nodes[..k], q, nodes[k].id);
    assert ParentFirst(nodes, k);
  }

  /** Everything above a restored layer is restored. */
  lemma {:induction false} AboveIsRestored(s: Shape, nodes: seq<Node>, k: nat, path: seq<Id>, i: nat)
    requires WellFormed(nodes) && Progress(s, nodes, k) && IsPath(s.parents, path) && i < |path|
    requires exists j :: 0 <= j < k && nodes[j].id == path[0]
    ensures exists j :: 0 <= j < k && nodes[j].id == path[i]
  {
    hide Recorded, IndexCounts, DistinctIds, Alive;
    if i > 0 {
      AboveIsRestored(s, nodes, k, path, i - 1);
      var j :| 0 <= j < k && nodes[j].id == path[i - 1];
      assert StepsUp(s.parents, path, i - 1) && Stands(s, nodes[j]) && ParentFirst(nodes, j);
    }
  }

  /** The next node can be moved or attached to its place. */
  lemma NextCanMove(s: Shape, nodes: seq<Node>, k: nat)
    requires WellFormed(nodes) && k < |nodes| && Progress(s, nodes, k)
    ensures CanHold(s, nodes[k].parent) && nodes[k].id in s.store
    ensures nodes[k].id in s.parents ==> CanMove(s, nodes[k].id, nodes[k].parent)
  {
    hide Recorded, IndexCounts;
    var id, p := nodes[k].id, nodes[k].parent;
    assert ParentFirst(nodes, k);
    if p != NO_LAYER {
      var j :| 0 <= j < k && nodes[j].id == p && nodes[j].kind == Group;
      assert Stands(s, nodes[j]);
      if Below(s.parents, p, id) {
        var path :| IsPath(s.parents, path) && path[0] == p && path[|path| - 1] == id;
        AboveIsRestored(s, nodes, k, path, |path| - 1);
      }
    }
  }

  function Dressed(s: Shape, n: Node): Shape
    requires n.id in s.store
  {
    var l := s.store[n.id].(props := n.props);
    s.(store := s.store[n.id := if l.kind == Raster then l.(tiles := n.tiles) else l])
  }

  /** After placing and dressing node `k`, one more node stands. */
  lemma PlaceNext(s: Shape, rank: Id -> nat, nodes: seq<Node>, k: nat, pm: map<Id, Id>, placed: Shape, s': Shape)
    requires WellFormed(nodes) && k < |nodes| && Progress(s, nodes, k) && Coherent(s, rank)
    requires Placed(s, nodes[k].id, nodes[k].parent, nodes[k].index, pm, placed) && nodes[k].id in placed.store
    requires s' == Dressed(placed, nodes[k])
    ensures Progress(s', nodes, k + 1)
  {
    hide Recorded, IndexCounts, DistinctIds, ParentFirst, Without, InsertAt, Coherent, Placed, Dressed, Stands,
         WellFormed;
    NextCanMove(s, nodes, k);
    forall p | Owner(s', p)
      ensures Recorded(nodes[..k + 1], p) <= Kids(s', p)
    {
      PlaceList(s, rank, nodes, k, pm, placed, s', p);
    }
    forall j | 0 <= j < k + 1 ensures Stands(s', nodes[j]) { PlaceStands(s, nodes, k, pm, placed, s', j); }
    forall j | 0 <= j < |nodes| ensures nodes[j].id in s'.store && s'.store[nodes[j].id].kind == nodes[j].kind {
      PlaceAlive(s, nodes, k, pm, placed, s', j);
    }
  }

  lemma PlaceAlive(s: Shape, nodes: seq<Node>, k: nat, pm: map<Id, Id>, placed: Shape, s': Shape, j: nat)
    requires k < |nodes| && Alive(s, nodes) && Placed(s, nodes[k].id, nodes[k].parent, nodes[k].index, pm, placed)
             && nodes[k].id in placed.store
    requires s' == Dressed(placed, nodes[k]) && j < |nodes|
    ensures nodes[j].id in s'.store && s'.store[nodes[j].id].kind == nodes[j].kind
  {
    hide Without, InsertAt;
    assert placed.store[nodes[j].id].(children := s.store[nodes[j].id].children) == s.store[nodes[j].id];
  }

  lemma PlaceStands(s: Shape, nodes: seq<Node>, k: nat, pm: map<Id, Id>, placed: Shape, s': Shape, j: nat)
    requires WellFormed(nodes) && k < |nodes| && Progress(s, nodes, k) && j <= k
    requires Placed(s, nodes[k].id, nodes[k].parent, nodes[k].index, pm, placed) && nodes[k].id in placed.store
             && s' == Dressed(placed, nodes[k])
    ensures Stands(s', nodes[j])
  {
    hide Recorded, IndexCounts, ParentFirst, Without, InsertAt;
    var id := nodes[j].id;
    assert placed.store[id].(children := s.store[id].children) == s.store[id];
    if j < k { assert Stands(s, nodes[j]); }
  }

  lemma PlaceList(s: Shape, rank: Id -> nat, nodes: seq<Node>, k: nat, pm: map<Id, Id>, placed: Shape, s': Shape, p: Id)
    requires WellFormed(nodes) && k < |nodes| && Progress(s, nodes, k) && Coherent(s, rank)
             && CanHold(s, nodes[k].parent)
    requires Placed(s, nodes[k].id, nodes[k].parent, nodes[k].index, pm, placed) && nodes[k].id in placed.store
    requires s' == Dressed(placed, nodes[k]) && Owner(s', p)
    ensures Recorded(nodes[..k + 1], p) <= Kids(s', p)
  {
    hide Recorded, WellFormed, Coherent, Without, Progress, InsertAt, Placed, IndexCounts, Dressed;
    var n := nodes[k];
    NotYet(nodes, k, p);
    assert nodes[..k + 1] == nodes[..k] + [n];
    RecordedJoin(nodes[..k], [n], p);
    OneNode(n);
    PlacedKids(s, n, pm, placed, p);
    DressedKids(placed, n, p);
    LeadingSoFar(s, nodes, k, p);
    if Owner(s, p) {
      var pre := Recorded(nodes[..k], p);
      var rest := if n.id in s.parents && p == s.parents[n.id] then Without(Kids(s, p), n.id) else Kids(s, p);
      PrefixWithout(Kids(s, p), pre, n.id);
      if p == n.parent {
        assert n.index == |pre| by { CountAt(nodes, k); }
        LeadInsert(pre, rest, n.id);
      }
    } else {
      NewOwner(s, nodes, k, p);
    }
  }

  /** Nothing is recorded yet below a layer that only just came. */
  lemma NewOwner(s: Shape, nodes: seq<Node>, k: nat, p: Id)
    requires WellFormed(nodes) && k < |nodes| && Progress(s, nodes, k) && CanHold(s, nodes[k].parent) && !Owner(s, p)
    ensures Recorded(nodes[..k], p) == [] && nodes[k].parent != p
  {
    hide Recorded, IndexCounts, DistinctIds, ParentFirst, Alive;
    forall j | 0 <= j < k ensures nodes[j].id != p { assert Stands(s, nodes[j]); }
    NoneBelow(nodes, k, p);
  }

  lemma CountAt(nodes: seq<Node>, k: nat)
    requires WellFormed(nodes) && k < |nodes|
    ensures nodes[k].index == |Recorded(nodes[..k], nodes[k].parent)|
  {
    assert IndexCounts(nodes, k);
  }

  lemma LeadingSoFar(s: Shape, nodes: seq<Node>, k: nat, p: Id)
    requires Progress(s, nodes, k)
    ensures Owner(s, p) ==> Recorded(nodes[..k], p) <= Kids(s, p)
  {
  }

  lemma PlacedKids(s: Shape, n: Node, pm: map<Id, Id>, placed: Shape, q: Id)
    requires Placed(s, n.id, n.parent, n.index, pm, placed)
    ensures placed.parents == s.parents + pm[n.id := n.parent]
    ensures var rest := if n.id in s.parents && q == s.parents[n.id] then Without(Kids(s, q), n.id) else Kids(s, q);
            Kids(placed, q) == if q == n.parent then InsertAt(rest, ClampIndex(n.index, |rest|), n.id) else rest
  {
    hide Without, InsertAt;
  }

  lemma DressedKids(s: Shape, n: Node, q: Id)
    requires n.id in s.store
    ensures Kids(Dressed(s, n), q) == Kids(s, q) && Dressed(s, n).parents == s.parents
  {
  }

  lemma LeadInsert(pre: seq<Id>, rest: seq<Id>, id: Id)
    requires pre <= rest
    ensures pre + [id] <= InsertAt(rest, ClampIndex(|pre|, |rest|), id)
  {
    assert InsertAt(rest, |pre|, id)[..|pre| + 1] == pre + [id];
  }

  /** A list that starts with all its members is no longer than that. */
  lemma LeadIsAll(list: seq<Id>, pre: seq<Id>)
    requires pre <= list && Distinct(list) && forall c :: c in list ==> c in pre
    ensures list == pre
  {
    if |pre| < |list| { LeadHas(list, pre, |pre|); }
  }

  lemma LeadHas(list: seq<Id>, pre: seq<Id>, i: nat)
    requires pre <= list && (forall c :: c in list ==> c in pre) && i < |list|
    ensures exists j :: 0 <= j < |pre| && list[j] == list[i]
  {
    assert list[i] in pre;
    var j :| 0 <= j < |pre| && pre[j] == list[i];
    assert list[j] == list[i];
  }

  /** When every node stands and leads, the tree is the recorded one exactly if nothing else came back. */
  lemma RestoredMatches(s: Shape, rank: Id -> nat, nodes: seq<Node>)
    requires WellFormed(nodes) && Coherent(s, rank) && Progress(s, nodes, |nodes|)
    ensures Matches(s, nodes) <==> s.parents.Keys <= Ids(nodes)
  {
    hide Recorded, WellFormed, Coherent, Alive, Distinct;
    assert nodes[..|nodes|] == nodes;
    forall id | id in Ids(nodes) ensures id in s.parents {
      var k :| 0 <= k < |nodes| && nodes[k].id == id;
      assert Stands(s, nodes[k]);
    }
    if s.parents.Keys <= Ids(nodes) {
      forall p | Owner(s, p) ensures Kids(s, p) == Recorded(nodes, p) { RestoredList(s, rank, nodes, p); }
    }
  }

  lemma RestoredList(s: Shape, rank: Id -> nat, nodes: seq<Node>, p: Id)
    requires WellFormed(nodes) && Coherent(s, rank) && Progress(s, nodes, |nodes|) && s.parents.Keys <= Ids(nodes)
             && Owner(s, p)
    ensures Kids(s, p) == Recorded(nodes, p)
  {
    hide Recorded, WellFormed, Coherent, Alive, Distinct;
    assert nodes[..|nodes|] == nodes;
    ListAt(s, rank, p);
    forall c | c in Kids(s, p) ensures c in Recorded(nodes, p) {
      RecordedAre(nodes, p, c);
      var k :| 0 <= k < |nodes| && nodes[k].id == c;
      assert Stands(s, nodes[k]);
    }
    LeadIsAll(Kids(s, p), Recorded(nodes, p));
  }

  // ---- lists of layers that are not attached -----------------------------------------------------------

  /** Two stores agree on the lists of everything outside `att`. */
  ghost predicate AgreeOutside(a: map<Id, Layer>, b: map<Id, Layer>, att: set<Id>) {
    a.Keys == b.Keys && forall y :: y in a && y !in att ==> b[y].children == a[y].children
  }

  /** A walk that stays outside `att` until its end is a walk in both stores. */
  lemma SameWalk(a: map<Id, Layer>, b: map<Id, Layer>, att: set<Id>, path: seq<Id>)
    requires AgreeOutside(a, b, att) && IsDownPath(a, path) && forall i :: 0 <= i < |path| - 1 ==> path[i] !in att
    ensures IsDownPath(b, path)
  {
    forall i | 0 <= i < |path| - 1 ensures StepDown(b, path, i) { assert StepDown(a, path, i); }
  }

  lemma WalkHead(a: map<Id, Layer>, path: seq<Id>, i: nat)
    requires IsDownPath(a, path) && i < |path|
    ensures IsDownPath(a, path[..i + 1]) && Names(a, path[0], path[i])
  {
    var head := path[..i + 1];
    forall j | 0 <= j < |head| - 1 ensures StepDown(a, head, j) { assert StepDown(a, path, j); }
    assert IsDownPath(a, head) && head[0] == path[0] && head[|head| - 1] == path[i];
  }

  /** If `x` names nothing in `att` in one store, it names the same in the other. */
  lemma SameNamed(a: map<Id, Layer>, b: map<Id, Layer>, att: set<Id>, x: Id)
    requires AgreeOutside(a, b, att) && Named(a, x) !! att
    ensures Named(a, x) <= Named(b, x)
  {
    forall y | y in Named(a, x) ensures y in Named(b, x) {
      var path :| IsDownPath(a, path) && path[0] == x && path[|path| - 1] == y;
      forall i | 0 <= i < |path| - 1 ensures path[i] !in att {
        WalkHead(a, path, i);
        assert StepDown(a, path, i);
      }
      SameWalk(a, b, att, path);
    }
  }

  /** If `x` names something in `att` in one store, so it does in the other. */
  lemma FirstAttached(a: map<Id, Layer>, b: map<Id, Layer>, att: set<Id>, x: Id)
    requires AgreeOutside(a, b, att) && att <= a.Keys && !(Named(a, x) !! att)
    ensures !(Named(b, x) !! att)
  {
    hide Named;
    var y :| y in Named(a, x) && y in att;
    var path := WalkTo(a, x, y);
    var i := 0;
    while path[i] !in att
      invariant 0 <= i < |path| && forall j :: 0 <= j < i ==> path[j] !in att
      decreases |path| - i
    {
      i := i + 1;
    }
    WalkHead(a, path, i);
    SameWalk(a, b, att, path[..i + 1]);
    WalkNames(b, path[..i + 1], x, path[i]);
  }

  lemma WalkTo(a: map<Id, Layer>, x: Id, y: Id) returns (path: seq<Id>)
    requires y in Named(a, x)
    ensures IsDownPath(a, path) && path[0] == x && path[|path| - 1] == y
  {
    path :| IsDownPath(a, path) && path[0] == x && path[|path| - 1] == y;
  }

  lemma WalkNames(b: map<Id, Layer>, path: seq<Id>, x: Id, y: Id)
    requires IsDownPath(b, path) && path[0] == x && path[|path| - 1] == y && y in b
    ensures y in Named(b, x)
  {
  }

  /** So the condition may be read off the old lists as long as the layer is not attached. */
  lemma SameCondition(a: map<Id, Layer>, s: Shape, x: Id)
    requires Frozen(a, s) && s.parents.Keys <= a.Keys && x in a && x !in s.parents
    ensures (Named(a, x) !! s.parents.Keys && Single(a, Named(a, x))) <==> Whole(s, x)
    ensures Whole(s, x) ==> Named(a, x) == Named(s.store, x)
  {
    hide Named;
    var att := s.parents.Keys;
    if Named(a, x) !! att {
      SameNamed(a, s.store, att, x);
      if !(Named(s.store, x) !! att) { FirstAttached(s.store, a, att, x); }
      SameNamed(s.store, a, att, x);
      SameSingle(a, s.store, att, Named(a, x));
    } else {
      FirstAttached(a, s.store, att, x);
    }
  }

  lemma SameSingle(a: map<Id, Layer>, b: map<Id, Layer>, att: set<Id>, t: set<Id>)
    requires AgreeOutside(a, b, att) && t !! att
    ensures Single(a, t) <==> Single(b, t)
  {
  }

  // ---- the restoration ---------------------------------------------------------------------------------

  lemma FrozenOn(a: map<Id, Layer>, s: Shape, id: Id, p: Id, at: int, pm: map<Id, Id>, placed: Shape, n: Node)
    requires Frozen(a, s) && Placed(s, id, p, at, pm, placed) && Owner(s, p) && NO_LAYER !in s.store
    requires n.id == id && id in placed.store
             && (id in s.parents && s.parents[id] != NO_LAYER ==> s.parents[id] in s.parents)
    ensures Frozen(a, Dressed(placed, n))
  {
    hide Without, InsertAt;
    var s' := Dressed(placed, n);
    forall y | y in a && y !in s'.parents ensures s'.store[y].children == a[y].children {
      assert Kids(placed, y) == Kids(s, y);
    }
  }

  /** Puts node `k` where it was and gives it back its properties and pixels. This fails exactly for a
      detached layer whose lists do not name a tree of its own; then some layer is on two lists. */
  method PlaceNode(tree: LayerTree, ghost nodes: seq<Node>, ghost k: nat, n: Node, ghost a: map<Id, Layer>)
          returns (r: Result<()>)
    requires tree.Valid() && WellFormed(nodes) && k < |nodes| && n == nodes[k] && Progress(tree.View(), nodes, k)
             && Frozen(a, tree.View())
    modifies tree
    ensures r.Ok? <==> n.id in old(tree.index) || Whole(old(tree.View()), n.id)
    ensures r.Ok? ==> tree.Valid() && Progress(tree.View(), nodes, k + 1) && Frozen(a, tree.View())
    ensures r.Ok? ==>
            tree.index == old(tree.index) + if n.id in old(tree.index) then {} else Named(old(tree.store), n.id)
    ensures r.Err? ==> r.error == Broken && Anchored(tree.View()) && exists y :: Doubled(tree.View(), y)
  {
    hide Coherent, Progress, Placed, Inserted, MovedTo, WellFormed, CanMove, SameButLists, InRange, Dressed, Whole,
         Hung, Frozen, Named, Doubled, OwnersIn, Anchored, LaterStep;
    ghost var s, rank, pm: map<Id, Id> := tree.View(), tree.rank, map[];
    NextCanMove(s, nodes, k);
    AllStored(s, rank);
    if n.id !in tree.index {
      var clean;
      r, clean := tree.Reattach(n.id, n.parent, n.index);
      if !clean {
        CoherentAnchored(s, rank);
        ReattachIsStep(s, n.id, n.parent, ClampIndex(n.index, |Kids(s, n.parent)|), tree.View());
        return Err(Broken);
      }
      pm := ReattachedIsPlaced(s, rank, n, tree.View());
    } else {
      r := tree.Move(n.id, n.parent, n.index);
      MovedIsPlaced(s, n.id, n.parent, n.index, tree.View());
    }
    ghost var placed := tree.View();
    NodeAlive(s, nodes, k, pm, placed);
    ParentOwner(s, rank, n.id);
    FrozenOn(a, s, n.id, n.parent, n.index, pm, placed, n);
    DressNode(tree, n);
    PlaceNext(s, rank, nodes, k, pm, placed, tree.View());
    r := Ok(());
  }

  lemma ParentOwner(s: Shape, rank: Id -> nat, id: Id)
    requires Coherent(s, rank)
    ensures NO_LAYER !in s.store && (id in s.parents && s.parents[id] != NO_LAYER ==> s.parents[id] in s.parents)
  {
    hide Coherent;
    RootNotStored(s, rank);
    if id in s.parents { ParentAt(s, rank, id); }
  }

  lemma ReattachedIsPlaced(s: Shape, rank: Id -> nat, n: Node, s': Shape) returns (pm: map<Id, Id>)
    requires Coherent(s, rank) && n.id in s.store && n.id !in s.parents && Whole(s, n.id) && CanHold(s, n.parent)
    requires (forall c :: c in s.parents ==> c in s.store)
             && Hung(s, n.id, n.parent, ClampIndex(n.index, |Kids(s, n.parent)|), s')
    ensures Placed(s, n.id, n.parent, n.index, pm, s') && s'.parents.Keys == s.parents.Keys + Named(s.store, n.id)
  {
    hide Coherent, Named, LocalTree, Inserted, Hung, Placed, OwnersIn, Single;
    var t := Named(s.store, n.id);
    pm := OwnersIn(s.store, t, n.id);
    WholeLocal(s, rank, n.id);
    LocalKeys(s.store, rank, t, n.id, pm, n.parent);
    HungWhole(s, rank, t, n.id, pm, n.parent, ClampIndex(n.index, |Kids(s, n.parent)|), s');
    InsertedIsPlaced(s, rank, n.id, pm, n.parent, n.index);
    PlacedKids(s, n, pm, s', NO_LAYER);
  }

  lemma LocalKeys(store: map<Id, Layer>, rank: Id -> nat, t: set<Id>, x: Id, pm: map<Id, Id>, p: Id)
    requires LocalTree(store, rank, t, x, pm)
    ensures pm.Keys == t - {x} && x in t && x !in pm && pm[x := p].Keys == t
  {
  }

  /** Properties first, then pixels where there are pixels. */
  method DressNode(tree: LayerTree, n: Node)
    requires tree.Valid() && n.id in tree.store && 0.0 <= n.props.opacity <= 1.0
    modifies tree`store
    ensures tree.Valid() && tree.View() == Dressed(old(tree.View()), n)
  {
    hide Coherent, InRange;
    tree.SetProps(n.id, n.props);
    if tree.store[n.id].kind == Raster {
      var _ := tree.SetTiles(n.id, n.tiles);
    }
  }

  lemma NodeAlive(s: Shape, nodes: seq<Node>, k: nat, pm: map<Id, Id>, placed: Shape)
    requires WellFormed(nodes) && k < |nodes| && Progress(s, nodes, k)
             && Placed(s, nodes[k].id, nodes[k].parent, nodes[k].index, pm, placed)
    ensures nodes[k].id in placed.store && 0.0 <= nodes[k].props.opacity <= 1.0
  {
  }

  /** What the whole condition says is decided turn by turn. */
  lemma FitsTurn(a: map<Id, Layer>, s: Shape, nodes: seq<Node>, k: nat)
    requires k < |nodes| && Frozen(a, s) && s.parents.Keys <= a.Keys && nodes[k].id in a
    ensures nodes[k].id in s.parents ==> (Fits(a, nodes, k, s.parents.Keys) <==> Fits(a, nodes, k + 1, s.parents.Keys))
    ensures nodes[k].id !in s.parents ==>
              var t := Named(s.store, nodes[k].id);
              (Fits(a, nodes, k, s.parents.Keys) <==>
                Whole(s, nodes[k].id) && t <= Ids(nodes) && Fits(a, nodes, k + 1, s.parents.Keys + t))
  {
    hide Named, Frozen, Ids, Single, Whole;
    if nodes[k].id !in s.parents { SameCondition(a, s, nodes[k].id); }
  }

  lemma FitsEnd(a: map<Id, Layer>, nodes: seq<Node>, att: set<Id>)
    ensures Fits(a, nodes, |nodes|, att)
  {
  }

  /** Restores the recorded tree. It ends with exactly the recorded layers, in the recorded places and
      order, with the recorded properties and pixels, whatever was added, moved, renamed, removed or
      painted since, if and only if `Restorable` holds before. Where a reattached layer drags along what
      is attached already, the model stops; `NeverRepaired` says why going on would not help. */
  method RestoreSnapshot(tree: LayerTree, snap: DocSnapshot) returns (r: Result<()>)
    requires tree.Valid() && WellFormed(snap.nodes) && Alive(tree.View(), snap.nodes)
    modifies tree
    ensures (r.Ok? && Matches(tree.View(), snap.nodes)) <==> Restorable(old(tree.View()), snap.nodes)
    ensures r.Ok? ==> tree.Valid() && tree.canvas == snap.canvas && forall k :: 0 <= k < |snap.nodes| ==>
            Stands(tree.View(), snap.nodes[k])
    ensures r.Ok? && snap.active in Ids(snap.nodes) ==> tree.active == snap.active
    ensures r.Err? ==> r.error == Broken && Anchored(tree.View()) && exists y :: Doubled(tree.View(), y)
  {
    hide Progress, Alive, WellFormed, Ids, Kept, Fits, Frozen, Doubled, Matches, Stands, SameButLists, LayerTree.Valid;
    ghost var s0, nodes := tree.View(), snap.nodes;
    r := RemoveNewer(tree, snap);
    StartProgress(s0, tree.View(), nodes);
    KeptRecorded(s0, Ids(nodes));
    var k := 0;
    while k < |snap.nodes|
      invariant 0 <= k <= |nodes| && tree.Valid() && Progress(tree.View(), nodes, k) && Frozen(s0.store, tree.View())
      invariant Restorable(s0, nodes) <==> tree.index <= Ids(nodes) && Fits(s0.store, nodes, k, tree.index)
    {
      r := RestoreTurn(tree, nodes, k, snap.nodes[k], s0.store);
      if r.Err? { return r; }
      k := k + 1;
    }
    FitsEnd(s0.store, nodes, tree.index);
    Finish(tree, snap);
    r := Ok(());
  }

  /** The canvas size and the active layer. */
  method Finish(tree: LayerTree, snap: DocSnapshot)
    requires tree.Valid() && WellFormed(snap.nodes) && Progress(tree.View(), snap.nodes, |snap.nodes|)
    modifies tree`canvas, tree`active
    ensures tree.Valid() && tree.canvas == snap.canvas && forall k :: 0 <= k < |snap.nodes| ==>
            Stands(tree.View(), snap.nodes[k])
    ensures snap.active in Ids(snap.nodes) ==> tree.active == snap.active
    ensures Matches(tree.View(), snap.nodes) <==> tree.index <= Ids(snap.nodes)
  {
    hide Coherent, Progress, WellFormed, Ids, Matches, Stands, InRange;
    RestoredMatches(tree.View(), tree.rank, snap.nodes);
    AllStand(tree.View(), snap.nodes);
    RootNotRecorded(snap.nodes);
    tree.canvas := snap.canvas;
    if snap.active != NO_LAYER && snap.active in tree.index {
      var _ := tree.SetActive(snap.active);
    }
  }

  /** One turn of the loop, and what it decides. */
  method RestoreTurn(tree: LayerTree, ghost nodes: seq<Node>, ghost k: nat, n: Node, ghost a: map<Id, Layer>)
          returns (r: Result<()>)
    requires tree.Valid() && WellFormed(nodes) && k < |nodes| && n == nodes[k] && Progress(tree.View(), nodes, k)
             && Frozen(a, tree.View())
    modifies tree
    ensures r.Ok? ==> tree.Valid() && Progress(tree.View(), nodes, k + 1) && Frozen(a, tree.View())
    ensures r.Ok? ==> ((old(tree.index) <= Ids(nodes) && Fits(a, nodes, k, old(tree.index))) <==>
                       (tree.index <= Ids(nodes) && Fits(a, nodes, k + 1, tree.index)))
    ensures r.Err? ==> !Fits(a, nodes, k, old(tree.index)) && r.error == Broken
    ensures r.Err? ==> Anchored(tree.View()) && exists y :: Doubled(tree.View(), y)
  {
    hide Coherent, Progress, WellFormed, Ids, Fits, Frozen, Named, Whole, Doubled, SameButLists, InRange;
    ghost var s := tree.View();
    StoredKeys(a, s, tree.rank, nodes, k);
    FitsTurn(a, s, nodes, k);
    r := PlaceNode(tree, nodes, k, n, a);
    assert r.Ok? ==> tree.index == s.parents.Keys + if n.id in s.parents then {} else Named(s.store, n.id);
    assert r.Ok? && n.id in s.parents ==> tree.index == s.parents.Keys;
  }

  lemma AllStand(s: Shape, nodes: seq<Node>)
    requires Progress(s, nodes, |nodes|)
    ensures forall k :: 0 <= k < |nodes| ==> Stands(s, nodes[k])
    ensures Ids(nodes) <= s.parents.Keys
  {
  }

  lemma KeptRecorded(s: Shape, ids: set<Id>)
    ensures Kept(s, ids) <= ids
  {
    hide Below;
  }

  lemma StoredKeys(a: map<Id, Layer>, s: Shape, rank: Id -> nat, nodes: seq<Node>, k: nat)
    requires Coherent(s, rank) && Frozen(a, s) && Progress(s, nodes, k) && k < |nodes|
    ensures s.parents.Keys <= a.Keys && nodes[k].id in a
  {
    hide Coherent, Recorded;
    AllStored(s, rank);
  }

  lemma StartProgress(s0: Shape, s: Shape, nodes: seq<Node>)
    requires Alive(s0, nodes) && SameButLists(s0.store, s.store)
    ensures Progress(s, nodes, 0)
  {
    forall k | 0 <= k < |nodes| ensures nodes[k].id in s.store && s.store[nodes[k].id].kind == nodes[k].kind {
      assert s.store[nodes[k].id].(children := s0.store[nodes[k].id].children) == s0.store[nodes[k].id];
    }
  }

  lemma RootNotRecorded(nodes: seq<Node>)
    requires WellFormed(nodes)
    ensures NO_LAYER !in Ids(nodes)
  {
    hide DistinctIds, ParentFirst, IndexCounts;
  }

  // ---- when the condition holds ------------------------------------------------------------------------

  lemma {:induction false} AllFit(store: map<Id, Layer>, nodes: seq<Node>, k: nat, att: set<Id>)
    requires k <= |nodes| && Ids(nodes) <= att
    ensures Fits(store, nodes, k, att)
    decreases |nodes| - k
  {
    hide Named, Single;
    if k < |nodes| { AllFit(store, nodes, k + 1, att); }
  }

  /** A recorded layer with only recorded layers above it stays. */
  lemma KeptWhenRecorded(s: Shape, rank: Id -> nat, ids: set<Id>)
    requires Coherent(s, rank) && s.parents.Keys <= ids
    ensures Kept(s, ids) == s.parents.Keys
  {
    hide Coherent, Below;
    forall y | y in s.parents ensures y in Kept(s, ids) {
      forall a | Below(s.parents, y, a) ensures a in ids { StillAbove(s, s, rank, y, a); }
      IsKept(s, rank, ids, y);
    }
  }

  /** After painting, renaming or reordering, restoring works whatever came before: all layers are there.
      With `MatchesDetermines`, doing it again gives the same tree. */
  lemma SameLayersRestorable(s: Shape, rank: Id -> nat, nodes: seq<Node>)
    requires Coherent(s, rank) && s.parents.Keys == Ids(nodes)
    ensures Restorable(s, nodes)
  {
    hide Coherent, Kept, Fits, Ids;
    KeptWhenRecorded(s, rank, Ids(nodes));
    AllFit(s.store, nodes, 0, Kept(s, Ids(nodes)));
  }

  /** The group is attached, below the root or a recorded layer. */
  ghost predicate Attached(s: Shape, nodes: seq<Node>, id: Id) {
    id in s.parents && (s.parents[id] == NO_LAYER || s.parents[id] in Ids(nodes))
  }

  /** No recorded group was removed or put below a newer one. */
  ghost predicate GroupsAttached(s: Shape, nodes: seq<Node>) {
    forall k :: 0 <= k < |nodes| && nodes[k].kind == Group ==> Attached(s, nodes, nodes[k].id)
  }

  /** While that is so, restoring works, whatever happened to the other layers. */
  lemma AttachedGroupsRestorable(s: Shape, rank: Id -> nat, nodes: seq<Node>)
    requires Coherent(s, rank) && Alive(s, nodes) && GroupsAttached(s, nodes)
    ensures Restorable(s, nodes)
  {
    hide Coherent, Kept, Fits, Ids, Alive, GroupsAttached;
    GroupsKept(s, rank, nodes);
    RastersFit(s, rank, nodes, 0, Kept(s, Ids(nodes)));
  }

  lemma GroupsKept(s: Shape, rank: Id -> nat, nodes: seq<Node>)
    requires Coherent(s, rank) && Alive(s, nodes) && GroupsAttached(s, nodes)
    ensures forall k :: 0 <= k < |nodes| && nodes[k].kind == Group ==> nodes[k].id in Kept(s, Ids(nodes))
  {
    hide Coherent, Below, Kept, Alive, GroupsAttached, Ids;
    forall k | 0 <= k < |nodes| && nodes[k].kind == Group ensures nodes[k].id in Kept(s, Ids(nodes)) {
      GroupAt(s, nodes, k);
      forall a | Below(s.parents, nodes[k].id, a) ensures a in Ids(nodes) { AboveGroup(s, rank, nodes, k, a); }
      IsKept(s, rank, Ids(nodes), nodes[k].id);
    }
  }

  lemma AboveGroup(s: Shape, rank: Id -> nat, nodes: seq<Node>, k: nat, a: Id)
    requires Coherent(s, rank) && Alive(s, nodes) && GroupsAttached(s, nodes) && k < |nodes| && nodes[k].kind == Group
    requires Below(s.parents, nodes[k].id, a)
    ensures a in Ids(nodes)
  {
    hide Coherent, GroupsAttached;
    GroupAt(s, nodes, k);
    var path :| IsPath(s.parents, path) && path[0] == nodes[k].id && path[|path| - 1] == a;
    GroupPath(s, rank, nodes, path, |path| - 1);
  }

  lemma GroupAt(s: Shape, nodes: seq<Node>, k: nat)
    requires GroupsAttached(s, nodes) && k < |nodes| && nodes[k].kind == Group
    ensures nodes[k].id in s.parents && nodes[k].id in Ids(nodes)
  {
    assert Attached(s, nodes, nodes[k].id);
  }

  lemma {:induction false} GroupPath(s: Shape, rank: Id -> nat, nodes: seq<Node>, path: seq<Id>, i: nat)
    requires Coherent(s, rank) && Alive(s, nodes) && GroupsAttached(s, nodes) && IsPath(s.parents, path) && i < |path|
    requires path[0] in Ids(nodes) && path[0] in s.store && s.store[path[0]].kind == Group
    ensures path[i] in Ids(nodes) && path[i] in s.store && s.store[path[i]].kind == Group
  {
    hide Coherent;
    if i > 0 {
      GroupPath(s, rank, nodes, path, i - 1);
      assert StepsUp(s.parents, path, i - 1);
      ParentAt(s, rank, path[i - 1]);
      var k :| 0 <= k < |nodes| && nodes[k].id == path[i - 1];
      assert Attached(s, nodes, nodes[k].id);
    }
  }

  /** A detached raster layer is a tree of its own. */
  lemma {:induction false} RastersFit(s: Shape, rank: Id -> nat, nodes: seq<Node>, k: nat, att: set<Id>)
    requires Coherent(s, rank) && Alive(s, nodes) && k <= |nodes|
    requires forall j :: 0 <= j < |nodes| && nodes[j].kind == Group ==> nodes[j].id in att
    ensures Fits(s.store, nodes, k, att)
    decreases |nodes| - k
  {
    hide Coherent, Named, Single, Ids;
    if k < |nodes| {
      var x := nodes[k].id;
      if x in att {
        RastersFit(s, rank, nodes, k + 1, att);
      } else {
        RasterAlone(s, rank, x);
        NodeRecorded(nodes, k);
        RastersFit(s, rank, nodes, k + 1, att + {x});
      }
    }
  }

  lemma NodeRecorded(nodes: seq<Node>, k: nat)
    requires k < |nodes|
    ensures nodes[k].id in Ids(nodes)
  {
  }

  lemma RasterAlone(s: Shape, rank: Id -> nat, x: Id)
    requires Coherent(s, rank) && x in s.store && s.store[x].kind == Raster
    ensures Named(s.store, x) == {x} && Single(s.store, {x})
  {
    hide Named, Distinct;
    NamedOnly(s.store, rank, x, {x});
  }

  lemma AfterRemoval(s: Shape, rank: Id -> nat, nodes: seq<Node>, id: Id, s': Shape, rank': Id -> nat)
    requires Coherent(s, rank) && WellFormed(nodes) && Matches(s, nodes) && id in s.parents && Removed(s, id, s')
             && Coherent(s', rank')
    requires Named(s'.store, id) == Sub(s, id) && Whole(s', id)
    ensures Restorable(s', nodes)
  {
    hide Coherent, Kept, Fits, Ids, Named, Sub, Matches, WellFormed, Single;
    MatchedIds(s, nodes);
    KeptWhenRecorded(s', rank', Ids(nodes));
    SubAttached(s, rank, id);
    RemovedFits(s, rank, nodes, id, s', 0);
  }

  lemma MatchedIds(s: Shape, nodes: seq<Node>)
    requires Matches(s, nodes)
    ensures s.parents.Keys == Ids(nodes)
  {
  }

  lemma SubAttached(s: Shape, rank: Id -> nat, id: Id)
    requires Coherent(s, rank) && id in s.parents
    ensures id in Sub(s, id) && Sub(s, id) <= s.parents.Keys
  {
    hide Coherent, Below;
  }

  /** Up to the removed layer itself all nodes are attached; then everything is. */
  lemma {:induction false} RemovedFits(s: Shape, rank: Id -> nat, nodes: seq<Node>, id: Id, s': Shape, k: nat)
    requires Coherent(s, rank) && WellFormed(nodes) && Matches(s, nodes) && id in s.parents
             && s'.parents == s.parents - Sub(s, id)
    requires id in Sub(s, id) && Sub(s, id) <= s.parents.Keys
    requires Named(s'.store, id) == Sub(s, id) && Single(s'.store, Sub(s, id)) && k <= |nodes|
             && forall j :: 0 <= j < k ==> nodes[j].id != id
    ensures Fits(s'.store, nodes, k, s'.parents.Keys)
    decreases |nodes| - k
  {
    hide Coherent, Ids, Named, Sub, Matches, WellFormed, Single;
    MatchedIds(s, nodes);
    if k == |nodes| {
      FitsEnd(s'.store, nodes, s'.parents.Keys);
    } else {
      NodeRecorded(nodes, k);
      if nodes[k].id == id {
        assert s'.parents.Keys + Sub(s, id) == s.parents.Keys;
        AllFit(s'.store, nodes, k + 1, s'.parents.Keys + Sub(s, id));
      } else {
        BelowLater(s, nodes, id, k);
        RemovedFits(s, rank, nodes, id, s', k + 1);
      }
    }
  }

  /** A recorded layer below another is recorded later. */
  lemma BelowLater(s: Shape, nodes: seq<Node>, id: Id, k: nat)
    requires WellFormed(nodes) && Matches(s, nodes) && k < |nodes| && nodes[k].id != id && forall j :: 0 <= j < k ==>
             nodes[j].id != id
    ensures nodes[k].id !in Sub(s, id)
  {
    hide Below, Recorded, IndexCounts, DistinctIds;
    var ids := seq(|nodes|, i requires 0 <= i < |nodes| => nodes[i].id);
    forall j | 0 <= j < |ids|
      ensures ids[j] in s.parents && (s.parents[ids[j]] == NO_LAYER || BeforeIn(ids, j, s.parents[ids[j]]))
    {
      assert Stands(s, nodes[j]) && ParentFirst(nodes, j);
      if nodes[j].parent != NO_LAYER {
        var m :| 0 <= m < j && nodes[m].id == nodes[j].parent;
        assert ids[m] == nodes[j].parent;
      }
    }
    if Below(s.parents, ids[k], id) { AboveBefore(s, ids, k, id); }
  }

  /** What restoring is for: a layer removed after the snapshot, with everything below it, comes back as it
      was, and so does everything else. */
  method RemovalUndone(tree: LayerTree, id: Id) returns (r: Result<()>)
    requires tree.Valid() && id in tree.index
    modifies tree
    ensures r.Ok? && tree.Valid() && tree.canvas == old(tree.canvas)
    ensures tree.parents == old(tree.parents) && tree.roots == old(tree.roots)
    ensures forall l :: l in old(tree.index) ==>
              && l in tree.store && l in old(tree.store) && tree.store[l].children == old(tree.store)[l].children
              && tree.store[l].kind == old(tree.store)[l].kind && tree.store[l].props == old(tree.store)[l].props
              && (tree.store[l].kind == Raster ==> tree.store[l].tiles == old(tree.store)[l].tiles)
  {
    hide Coherent, Matches, WellFormed, Removed, Sub, Named, Whole, Restorable, Alive, Ids, Doubled, InRange;
    ghost var s, rank := tree.View(), tree.rank;
    var snap := TakeSnapshot(tree);
    var gone := tree.Remove(id);
    AfterRemoval(s, rank, snap.nodes, id, tree.View(), tree.rank);
    StillAlive(s, snap.nodes, tree.View(), id);
    r := RestoreSnapshot(tree, snap);
    AllStored(s, rank);
    MatchesDetermines(s, tree.View(), snap.nodes);
  }

  lemma StillAlive(s: Shape, nodes: seq<Node>, s': Shape, id: Id)
    requires Matches(s, nodes) && id in s.parents && Removed(s, id, s')
    ensures Alive(s', nodes)
  {
    hide Recorded, Sub, Without;
    forall k | 0 <= k < |nodes| ensures nodes[k].id in s'.store && s'.store[nodes[k].id].kind == nodes[k].kind {
      assert Stands(s, nodes[k]);
      assert s'.store[nodes[k].id].(children := s.store[nodes[k].id].children) == s.store[nodes[k].id];
    }
  }

  // ---- when it does not -----------------------------------------------------------------------------------

  lemma NamesOnward(store: map<Id, Layer>, x: Id, y: Id, z: Id)
    requires Names(store, x, y) && Names(store, y, z)
    ensures Names(store, x, z)
  {
    var a :| IsDownPath(store, a) && a[0] == x && a[|a| - 1] == y;
    var b :| IsDownPath(store, b) && b[0] == y && b[|b| - 1] == z;
    var path := a + b[1..];
    forall i | 0 <= i < |path| - 1 ensures StepDown(store, path, i) {
      if i < |a| - 1 { assert StepDown(store, a, i); } else { assert StepDown(store, b, i - (|a| - 1)); }
    }
    assert IsDownPath(store, path);
  }

  /** A recorded layer that is detached and names one that was not recorded blocks restoring, wherever it
      stands and whatever else holds: it cannot come back without the other. */
  lemma {:induction false} UnrecordedBlocks(store: map<Id, Layer>, nodes: seq<Node>, k: nat, att: set<Id>, m: nat,
          y: Id)
    requires k <= m < |nodes| && nodes[m].id !in att && y in Named(store, nodes[m].id) && y !in Ids(nodes)
    ensures !Fits(store, nodes, k, att)
    decreases |nodes| - k
  {
    hide Names, Single, Ids;
    if nodes[k].id in att {
      UnrecordedBlocks(store, nodes, k + 1, att, m, y);
    } else {
      var t := Named(store, nodes[k].id);
      if nodes[m].id in t {
        NamesOnward(store, nodes[k].id, nodes[m].id, y);
      } else if k < m {
        UnrecordedBlocks(store, nodes, k + 1, att + t, m, y);
      } else {
        NamesSelf(store, nodes[k].id);
      }
    }
  }

  lemma DetachedNotRestorable(s: Shape, nodes: seq<Node>, m: nat, y: Id)
    requires m < |nodes| && nodes[m].id !in s.parents && y in Named(s.store, nodes[m].id) && y !in Ids(nodes)
    ensures !Restorable(s, nodes)
  {
    hide Named, Ids, Below, Fits;
    UnrecordedBlocks(s.store, nodes, 0, Kept(s, Ids(nodes)), m, y);
  }

  method AddUnder(tree: LayerTree, kind: Kind, name: string, p: Id) returns (x: Id)
    requires tree.Valid() && CanHold(tree.View(), p)
    modifies tree
    ensures tree.Valid() && x !in old(tree.store) && x in tree.store && tree.store[x].kind == kind
    ensures tree.parents == old(tree.parents)[x := p]
    ensures forall c :: c in old(tree.store) ==> c in tree.store && tree.store[c].kind == old(tree.store)[c].kind
  {
    hide Coherent, InRange, Added, NewLayer;
    ghost var s, rank := tree.View(), tree.rank;
    AllStored(s, rank);
    var added := tree.Add(kind, name, p, -1);
    x := added.value;
    AddedIs(s, x, kind, name, p, -1);
  }

  /** A run in which it happens: an empty group is recorded, gets a layer, and is removed. Restoring brings
      the newer layer back with the group, so the tree is not the recorded one. */
  method RemovedGroupRevivesNewer(tree: LayerTree, name: string) returns (snap: DocSnapshot, r: Result<()>)
    requires tree.Valid()
    modifies tree
    ensures WellFormed(snap.nodes) && !(r.Ok? && Matches(tree.View(), snap.nodes))
  {
    hide Coherent, Matches, WellFormed, Removed, Sub, Named, Whole, Restorable, Alive, Ids, Doubled, InRange;
    var group := AddUnder(tree, Group, name, NO_LAYER);
    ghost var s, rank := tree.View(), tree.rank;
    ParentOwner(s, rank, group);
    snap := TakeSnapshot(tree);
    MatchedIds(s, snap.nodes);
    AllStored(s, rank);
    var newer := AddUnder(tree, Raster, name, group);
    ghost var mid := tree.View();
    var gone := tree.Remove(group);
    GroupTakesNewer(mid, group, newer);
    ghost var m := NodeOf(snap.nodes, group);
    AliveThrough(s, snap.nodes, mid, group, tree.View());
    RemovedParents(mid, group, tree.View());
    DetachedNotRestorable(tree.View(), snap.nodes, m, newer);
    r := RestoreSnapshot(tree, snap);
  }

  lemma RemovedParents(s: Shape, id: Id, s': Shape)
    requires id in s.parents && Removed(s, id, s')
    ensures s'.parents == s.parents - Sub(s, id)
  {
    hide Sub;
  }

  lemma AddedIs(s: Shape, x: Id, kind: Kind, name: string, p: Id, at: int)
    requires CanHold(s, p) && x !in s.store
    ensures var s' := Added(s, x, NewLayer(kind, name), p, at);
            && s'.parents == s.parents[x := p] && x in s'.store && s'.store[x].kind == kind
            && forall c :: c in s.store ==> c in s'.store && s'.store[c].kind == s.store[c].kind
  {
    hide InsertAt;
  }

  lemma GroupTakesNewer(s: Shape, group: Id, newer: Id)
    requires newer in s.parents && s.parents[newer] == group && group in s.parents && group != NO_LAYER
    ensures group in Sub(s, group) && newer in Sub(s, group)
  {
    hide Below;
    BelowStep(s.parents, newer, group);
  }

  lemma NodeOf(nodes: seq<Node>, id: Id) returns (m: nat)
    requires id in Ids(nodes)
    ensures m < |nodes| && nodes[m].id == id
  {
    m :| 0 <= m < |nodes| && nodes[m].id == id;
  }

  lemma AliveThrough(s: Shape, nodes: seq<Node>, mid: Shape, id: Id, s': Shape)
    requires Matches(s, nodes) && (forall c :: c in s.store ==> c in mid.store && mid.store[c].kind == s.store[c].kind)
    requires id in mid.parents && Removed(mid, id, s')
    ensures Alive(s', nodes)
  {
    hide Recorded, Sub, Without;
    forall k | 0 <= k < |nodes| ensures nodes[k].id in s'.store && s'.store[nodes[k].id].kind == nodes[k].kind {
      assert Stands(s, nodes[k]);
      assert s'.store[nodes[k].id].(children := mid.store[nodes[k].id].children) == mid.store[nodes[k].id];
    }
  }

  // ---- a layer on two lists -----------------------------------------------------------------------------

  lemma {:induction false} RecordedOnce(nodes: seq<Node>, p: Id, y: Id)
    requires DistinctIds(nodes)
    ensures multiset(Recorded(nodes, p))[y] <= 1
  {
    var n := |nodes| - 1;
    if n >= 0 {
      RecordedOnce(nodes[..n], p, y);
      if nodes[n].id == y {
        RecordedAre(nodes[..n], p, y);
        assert y !in Recorded(nodes[..n], p);
        assert y !in multiset(Recorded(nodes[..n], p));
      }
    }
  }

  /** Such a tree is never the recorded one. */
  lemma DoubledNeverMatches(s: Shape, nodes: seq<Node>, y: Id)
    requires WellFormed(nodes) && Doubled(s, y)
    ensures !Matches(s, nodes)
  {
    hide Recorded, ParentFirst, IndexCounts;
    if Matches(s, nodes) {
      forall p | Owner(s, p) ensures On(s, p, y) <= 1 { RecordedOnce(nodes, p, y); }
      forall p, q | Owner(s, p) && Owner(s, q) && On(s, p, y) >= 1 && On(s, q, y) >= 1 ensures p == q {
        RecordedAre(nodes, p, y);
        RecordedAre(nodes, q, y);
      }
    }
  }

  /** What a further step of the original can do to the lists, whatever state they are in: nothing, put a
      layer that was not attached on a list, or take an attached one off its parent's list and put it on
      another. No layer stops being attached. */
  ghost predicate LaterStep(s: Shape, s': Shape) {
    && s.parents.Keys <= s'.parents.Keys
    && (|| (forall z, c :: On(s', z, c) == On(s, z, c))
        || (exists id, p :: id !in s.parents && HangsUp(s, id, p, s'))
        || (exists id, p :: id in s.parents && Rehangs(s, id, p, s')))
  }

  ghost predicate HangsUp(s: Shape, id: Id, p: Id, s': Shape) {
    Owner(s', p) && forall z, c :: On(s', z, c) == On(s, z, c) + if z == p && c == id then 1 else 0
  }

  ghost predicate Rehangs(s: Shape, id: Id, p: Id, s': Shape)
    requires id in s.parents
  {
    && Owner(s', p) && On(s, s.parents[id], id) >= 1
    && forall z, c ::
         var gone, come := z == s.parents[id] && c == id, z == p && c == id;
         On(s', z, c) == On(s, z, c) - (if gone then 1 else 0) + if come then 1 else 0
  }

  lemma StaysDoubled(s: Shape, s': Shape, y: Id)
    requires LaterStep(s, s') && Doubled(s, y)
    ensures Doubled(s', y)
  {
    hide On;
    if p :| Owner(s, p) && On(s, p, y) >= 2 {
      TwiceStays(s, s', y, p);
    } else {
      var p, q :| p != q && Owner(s, p) && Owner(s, q) && On(s, p, y) >= 1 && On(s, q, y) >= 1;
      BothStay(s, s', y, p, q);
    }
  }

  lemma TwiceStays(s: Shape, s': Shape, y: Id, p: Id)
    requires LaterStep(s, s') && Owner(s, p) && On(s, p, y) >= 2
    ensures Doubled(s', y)
  {
    hide On;
    if id, to :| id in s.parents && Rehangs(s, id, to, s') {
      if On(s', p, y) < 2 { assert On(s', to, y) >= 1 && to != p; }
    } else {
      assert On(s', p, y) >= 2;
    }
  }

  lemma BothStay(s: Shape, s': Shape, y: Id, p: Id, q: Id)
    requires LaterStep(s, s') && p != q && Owner(s, p) && Owner(s, q) && On(s, p, y) >= 1 && On(s, q, y) >= 1
    ensures Doubled(s', y)
  {
    hide On;
    if id, to :| id in s.parents && Rehangs(s, id, to, s') {
      var stays := if On(s', p, y) >= 1 then p else q;
      assert On(s', stays, y) >= 1;
      if On(s', p, y) < 1 || On(s', q, y) < 1 {
        assert On(s', to, y) >= 1 && (to == stays ==> On(s', to, y) >= 2);
      }
    } else {
      assert On(s', p, y) >= 1 && On(s', q, y) >= 1;
    }
  }

  /** What holds of the lists in order or not: every attached layer is on its parent's list, at least once,
      and its parent is the root or attached. */
  ghost predicate Anchored(s: Shape) {
    && NO_LAYER !in s.store && (forall c :: c in s.parents ==> c in s.store)
    && forall c :: c in s.parents ==> Owner(s, s.parents[c]) && c in Kids(s, s.parents[c])
  }

  lemma CoherentAnchored(s: Shape, rank: Id -> nat)
    requires Coherent(s, rank)
    ensures Anchored(s)
  {
    hide Coherent, Distinct;
    AllStored(s, rank);
    RootNotStored(s, rank);
    forall c | c in s.parents ensures Owner(s, s.parents[c]) && c in Kids(s, s.parents[c]) {
      ParentAt(s, rank, c);
      InOwnList(s, rank, c);
    }
  }

  /** The steps themselves, in any state: a move that passes its checks, whatever the walk up says; */
  ghost predicate Moves(s: Shape, id: Id, p: Id, at: int, s': Shape) {
    && id in s.parents && (s.parents[id] == NO_LAYER || s.parents[id] in s.store) && CanHold(s, p)
    && s' == Relocated(s, id, p, at)
  }

  /** a reattachment, with whatever the layer names; */
  ghost predicate Reattaches(s: Shape, x: Id, p: Id, i: nat, s': Shape) {
    && x in s.store && x !in s.parents && CanHold(s, p) && (forall c :: c in s.parents ==> c in s.store)
    && i <= |Kids(s, p)| && Hung(s, x, p, i, s')
  }

  /** and setting properties and pixels. */
  ghost predicate Dresses(s: Shape, s': Shape) {
    s'.parents == s.parents && s'.store.Keys == s.store.Keys && forall z :: Kids(s', z) == Kids(s, z)
  }

  ghost predicate Goes(s: Shape, s': Shape) {
    || (exists id, p, at :: Moves(s, id, p, at, s'))
    || (exists x, p, i :: Reattaches(s, x, p, i, s'))
    || Dresses(s, s')
  }

  lemma MoveIsStep(s: Shape, id: Id, p: Id, at: int, s': Shape)
    requires Anchored(s) && Moves(s, id, p, at, s')
    ensures LaterStep(s, s') && Anchored(s')
  {
    hide On, Relocated, Kids;
    RelocatedKeys(s, id, p, at);
    forall z, c
      ensures On(s', z, c) == On(s, z, c) - (if z == s.parents[id] && c == id then 1 else 0)
              + (if z == p && c == id then 1 else 0)
    {
      RelocatedOn(s, id, p, at, z, c);
    }
    assert Rehangs(s, id, p, s') by { AnchorAt(s, id); }
    forall c | c in s'.parents ensures Owner(s', s'.parents[c]) && c in Kids(s', s'.parents[c]) {
      AnchorAt(s, c);
      assert On(s', s'.parents[c], c) >= 1;
    }
  }

  lemma AnchorAt(s: Shape, c: Id)
    requires Anchored(s) && c in s.parents
    ensures Owner(s, s.parents[c]) && c in Kids(s, s.parents[c]) && On(s, s.parents[c], c) >= 1
  {
  }

  lemma RelocatedKeys(s: Shape, id: Id, p: Id, at: int)
    requires Anchored(s) && id in s.parents && CanHold(s, p)
    ensures var s' := Relocated(s, id, p, at); s'.parents == s.parents[id := p] && s'.store.Keys == s.store.Keys
  {
    hide DropFirst, InsertAt;
  }

  lemma RelocatedOn(s: Shape, id: Id, p: Id, at: int, z: Id, c: Id)
    requires Anchored(s) && id in s.parents && CanHold(s, p)
    ensures On(Relocated(s, id, p, at), z, c) == On(s, z, c) - (if z == s.parents[id] && c == id then 1 else 0)
            + (if z == p && c == id then 1 else 0)
  {
    hide DropFirst, InsertAt, Relocated, Kids;
    var rest := if z == s.parents[id] then DropFirst(Kids(s, z), id) else Kids(s, z);
    AnchorAt(s, id);
    if z == s.parents[id] { DropFirstCount(Kids(s, z), id, c); }
    InsertCount(rest, ClampIndex(at, |rest|), id, c);
    RelocatedKids(s, id, p, at, z);
  }

  lemma RelocatedKids(s: Shape, id: Id, p: Id, at: int, z: Id)
    requires Anchored(s) && id in s.parents && CanHold(s, p)
    ensures var rest := if z == s.parents[id] then DropFirst(Kids(s, z), id) else Kids(s, z);
            Kids(Relocated(s, id, p, at), z) == if z == p then InsertAt(rest, ClampIndex(at, |rest|), id) else rest
  {
    hide DropFirst, InsertAt, SetKids, Kids;
    var from := s.parents[id];
    var list := DropFirst(Kids(s, from), id);
    SetKidsAt(s, from, list, z);
    SetKidsAt(s, from, list, p);
    var mid := SetKids(s, from, list).(parents := s.parents[id := p]);
    SameKids(SetKids(s, from, list), mid, z);
    SameKids(SetKids(s, from, list), mid, p);
    SetKidsAt(mid, p, InsertAt(Kids(mid, p), ClampIndex(at, |Kids(mid, p)|), id), z);
  }

  lemma SetKidsAt(s: Shape, p: Id, list: seq<Id>, q: Id)
    requires p == NO_LAYER || p in s.store
    ensures Kids(SetKids(s, p, list), q) == if q == p then list else Kids(s, q)
    ensures SetKids(s, p, list).store.Keys == s.store.Keys
  {
  }

  lemma SameKids(a: Shape, b: Shape, q: Id)
    requires a.store == b.store && a.roots == b.roots
    ensures Kids(a, q) == Kids(b, q)
  {
  }

  lemma ReattachIsStep(s: Shape, x: Id, p: Id, i: nat, s': Shape)
    requires Anchored(s) && Reattaches(s, x, p, i, s')
    ensures LaterStep(s, s') && Anchored(s')
  {
    hide On, Kids, Reattaches;
    ReattachedKeys(s, x, p, i, s');
    forall z, c ensures On(s', z, c) == On(s, z, c) + if z == p && c == x then 1 else 0 {
      ReattachedOn(s, x, p, i, s', z, c);
    }
    assert HangsUp(s, x, p, s');
    forall c | c in s'.parents ensures Owner(s', s'.parents[c]) && c in Kids(s', s'.parents[c]) {
      ReattachedAnchor(s, x, p, i, s', c);
    }
  }

  lemma ReattachedKeys(s: Shape, x: Id, p: Id, i: nat, s': Shape)
    requires Anchored(s) && Reattaches(s, x, p, i, s')
    ensures x !in s.parents && s.parents.Keys <= s'.parents.Keys && Owner(s', p) && NO_LAYER !in s'.store
    ensures forall c :: c in s'.parents ==> c in s'.store
  {
    hide InsertAt;
  }

  lemma ReattachedOn(s: Shape, x: Id, p: Id, i: nat, s': Shape, z: Id, c: Id)
    requires Anchored(s) && Reattaches(s, x, p, i, s')
    ensures On(s', z, c) == On(s, z, c) + if z == p && c == x then 1 else 0
  {
    hide InsertAt, Named, Enrolled;
    InsertCount(Kids(s, p), i, x, c);
    assert Kids(s', z) == if z == p then InsertAt(Kids(s, p), i, x) else Kids(s, z);
  }

  lemma ReattachedAnchor(s: Shape, x: Id, p: Id, i: nat, s': Shape, c: Id)
    requires Anchored(s) && Reattaches(s, x, p, i, s') && c in s'.parents
    ensures Owner(s', s'.parents[c]) && c in Kids(s', s'.parents[c])
  {
    hide Reattaches, Kids, On;
    ReattachedKeys(s, x, p, i, s');
    ReattachedOn(s, x, p, i, s', s'.parents[c], c);
    ReattachedOwner(s, x, p, i, s', c);
  }

  lemma ReattachedOwner(s: Shape, x: Id, p: Id, i: nat, s': Shape, c: Id)
    requires Anchored(s) && Reattaches(s, x, p, i, s') && c in s'.parents
    ensures var q := s'.parents[c]; Owner(s', q) && ((c == x && q == p) || c in Kids(s, q))
  {
    hide InsertAt, Named;
  }

  lemma DressIsStep(s: Shape, s': Shape)
    requires Anchored(s) && Dresses(s, s')
    ensures LaterStep(s, s') && Anchored(s')
  {
    assert forall z, c :: On(s', z, c) == On(s, z, c);
  }

  /** So every step of the original is one of those considered, and keeps the layers on their parents'
      lists. */
  lemma GoesIsStep(s: Shape, s': Shape)
    requires Anchored(s) && Goes(s, s')
    ensures LaterStep(s, s') && Anchored(s')
  {
    hide Anchored, LaterStep, Moves, Reattaches, Dresses;
    if id, p, at :| Moves(s, id, p, at, s') {
      MoveIsStep(s, id, p, at, s');
    } else if x, p, i :| Reattaches(s, x, p, i, s') {
      ReattachIsStep(s, x, p, i, s');
    } else {
      DressIsStep(s, s');
    }
  }

  /** Once the tree is broken, no run of moves, reattachments and settings makes it the recorded one, or any
      forest: it stays broken. */
  lemma {:induction false} NeverRepaired(run: seq<Shape>, nodes: seq<Node>, y: Id)
    requires |run| > 0 && Anchored(run[0]) && Doubled(run[0], y) && WellFormed(nodes)
    requires forall i :: 0 <= i < |run| - 1 ==> Goes(run[i], run[i + 1])
    ensures var s := run[|run| - 1]; Anchored(s) && Doubled(s, y) && !Matches(s, nodes) && forall rk :: !Coherent(s, rk)
  {
    hide LaterStep, Doubled, Matches, WellFormed, Goes, Anchored, Coherent;
    if |run| == 1 {
      DoubledNeverMatches(run[0], nodes, y);
      forall rk ensures !Coherent(run[0], rk) { DoubledBreaks(run[0], rk, y); }
    } else {
      GoesIsStep(run[0], run[1]);
      StaysDoubled(run[0], run[1], y);
      NeverRepaired(run[1..], nodes, y);
    }
  }

  lemma InsertCount(list: seq<Id>, i: nat, x: Id, c: Id)
    requires i <= |list|
    ensures multiset(InsertAt(list, i, x))[c] == multiset(list)[c] + if c == x then 1 else 0
  {
    assert list == list[..i] + list[i..];
  }
}
