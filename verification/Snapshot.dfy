/** Document snapshots (agent/src/snapshot.cpp): the tree is recorded parents first, and restored by
    moving every layer back to its place in that order. */
module Snapshot {
  import opened Geometry
  import opened Forest
  import opened Layers

  /** One recorded layer. `tiles` is the picture at the time; masks are not recorded. */
  datatype Node = Node(id: Id, parent: Id, index: nat, kind: Kind, props: Props, tiles: Pixels)

  datatype DocSnapshot = DocSnapshot(nodes: seq<Node>, canvas: Size, active: Id)

  // ---- reading a recording -----------------------------------------------------------------------------

  ghost function Ids(nodes: seq<Node>): set<Id> {
    set k | 0 <= k < |nodes| :: nodes[k].id
  }

  /** The recorded children of `p`, in order. */
  function Recorded(nodes: seq<Node>, p: Id): seq<Id> {
    if |nodes| == 0 then []
    else
      var init, n := nodes[..|nodes| - 1], nodes[|nodes| - 1];
      Recorded(init, p) + if n.parent == p then [n.id] else []
  }

  ghost predicate DistinctIds(nodes: seq<Node>) {
    forall i, j :: 0 <= i < j < |nodes| ==> nodes[i].id != nodes[j].id
  }

  /** A node's parent is the root or an earlier group. */
  ghost predicate ParentFirst(nodes: seq<Node>, k: nat)
    requires k < |nodes|
  {
    nodes[k].parent == NO_LAYER || exists j :: 0 <= j < k && nodes[j].id == nodes[k].parent && nodes[j].kind == Group
  }

  predicate IndexCounts(nodes: seq<Node>, k: nat)
    requires k < |nodes|
  {
    nodes[k].index == |Recorded(nodes[..k], nodes[k].parent)|
  }

  /** What every recording of a tree satisfies. */
  ghost predicate WellFormed(nodes: seq<Node>) {
    && DistinctIds(nodes)
    && (forall k :: 0 <= k < |nodes| ==> nodes[k].id != NO_LAYER && 0.0 <= nodes[k].props.opacity <= 1.0)
    && (forall k :: 0 <= k < |nodes| ==> ParentFirst(nodes, k))
    && (forall k :: 0 <= k < |nodes| ==> IndexCounts(nodes, k))
  }

  /** The layer stands in the tree as recorded. */
  ghost predicate Stands(s: Shape, n: Node) {
    && n.id in s.parents && n.id in s.store && s.parents[n.id] == n.parent
    && s.store[n.id].kind == n.kind && s.store[n.id].props == n.props
    && (n.kind == Raster ==> s.store[n.id].tiles == n.tiles)
  }

  /** The tree is the recorded one: the same layers, every list in the recorded order, and every layer
      as recorded. */
  ghost predicate Matches(s: Shape, nodes: seq<Node>) {
    && s.parents.Keys == Ids(nodes)
    && (forall k :: 0 <= k < |nodes| ==> Stands(s, nodes[k]))
    && (forall p :: Owner(s, p) ==> Kids(s, p) == Recorded(nodes, p))
  }

  /** Two trees that match one recording are the same, down to order, properties and pixels. */
  lemma MatchesDetermines(s: Shape, s': Shape, nodes: seq<Node>)
    requires Matches(s, nodes) && Matches(s', nodes) && WellFormed(nodes)
    ensures s.parents == s'.parents && s.roots == s'.roots
    ensures forall id :: id in s.parents ==>
            id in s.store && id in s'.store && s.store[id].children == s'.store[id].children
    ensures forall id :: id in s.parents ==>
            s.store[id].kind == s'.store[id].kind && s.store[id].props == s'.store[id].props
    ensures forall id :: id in s.parents && s.store[id].kind == Raster ==> s.store[id].tiles == s'.store[id].tiles
  {
    hide Recorded, DistinctIds, ParentFirst, IndexCounts;
    forall id | id in s.parents
      ensures id in s'.parents && s.parents[id] == s'.parents[id] && id in s.store && id in s'.store
      ensures s.store[id].children == s'.store[id].children && s.store[id].kind == s'.store[id].kind
              && s.store[id].props == s'.store[id].props
      ensures s.store[id].kind == Raster ==> s.store[id].tiles == s'.store[id].tiles
    {
      var k :| 0 <= k < |nodes| && nodes[k].id == id;
      assert Stands(s, nodes[k]) && Stands(s', nodes[k]);
      assert Kids(s, id) == Kids(s', id);
    }
    assert Kids(s, NO_LAYER) == Kids(s', NO_LAYER);
  }

  // ---- recording the tree --------------------------------------------------------------------------------

  lemma {:induction false} RecordedJoin(a: seq<Node>, b: seq<Node>, p: Id)
    ensures Recorded(a + b, p) == Recorded(a, p) + Recorded(b, p)
  {
    if |b| == 0 {
      assert a + b == a;
    } else {
      assert (a + b)[..|a + b| - 1] == a + b[..|b| - 1];
      RecordedJoin(a, b[..|b| - 1], p);
    }
  }

  lemma {:induction false} RecordedNone(nodes: seq<Node>, p: Id)
    requires forall k :: 0 <= k < |nodes| ==> nodes[k].parent != p
    ensures Recorded(nodes, p) == []
  {
    if |nodes| > 0 { RecordedNone(nodes[..|nodes| - 1], p); }
  }

  lemma IdsJoin(a: seq<Node>, b: seq<Node>)
    ensures Ids(a + b) == Ids(a) + Ids(b)
  {
    forall id | id in Ids(a + b) ensures id in Ids(a) + Ids(b) {
      var k :| 0 <= k < |a + b| && (a + b)[k].id == id;
      assert k < |a| ==> a[k].id == id;
      assert k >= |a| ==> b[k - |a|].id == id;
    }
    forall id | id in Ids(a) + Ids(b) ensures id in Ids(a + b) {
      if id in Ids(a) {
        var k :| 0 <= k < |a| && a[k].id == id;
        assert (a + b)[k].id == id;
      } else {
        var k :| 0 <= k < |b| && b[k].id == id;
        assert (a + b)[|a| + k].id == id;
      }
    }
  }

  lemma DistinctJoin(a: seq<Node>, b: seq<Node>)
    requires DistinctIds(a) && DistinctIds(b) && Ids(a) !! Ids(b)
    ensures DistinctIds(a + b)
  {
    forall i, j | 0 <= i < j < |a + b| ensures (a + b)[i].id != (a + b)[j].id {
      if i < |a| <= j { assert a[i].id in Ids(a) && b[j - |a|].id in Ids(b); }
    }
  }

  /** `d` is what hangs below the first `i` children of `p`, those included. */
  ghost predicate Hangs(s: Shape, rank: Id -> nat, p: Id, i: nat, d: set<Id>) {
    && i <= |Kids(s, p)| && d <= s.parents.Keys
    && (forall y :: y in d ==> if s.parents[y] == p then y in Kids(s, p)[..i] else s.parents[y] in d)
    && (forall y :: y in s.parents && s.parents[y] in d ==> y in d)
    && (forall j :: 0 <= j < i ==> Kids(s, p)[j] in d)
    && (p != NO_LAYER ==> forall y :: y in d ==> rank(y) < rank(p))
  }

  /** Node `k` is recorded truly; its parent is `p` or recorded before it. */
  ghost predicate NodeOk(s: Shape, p: Id, nodes: seq<Node>, k: nat)
    requires k < |nodes|
  {
    && Stands(s, nodes[k]) && IndexCounts(nodes, k)
    && (nodes[k].parent == p || exists j :: 0 <= j < k && nodes[j].id == nodes[k].parent)
  }

  /** `nodes` records what hangs below the first `i` children of `p`. */
  ghost predicate Records(s: Shape, rank: Id -> nat, p: Id, i: nat, nodes: seq<Node>) {
    && Hangs(s, rank, p, i, Ids(nodes)) && DistinctIds(nodes)
    && (forall k :: 0 <= k < |nodes| ==> NodeOk(s, p, nodes, k))
    && Recorded(nodes, p) == Kids(s, p)[..i]
    && (forall q :: q in Ids(nodes) ==> Recorded(nodes, q) == Kids(s, q))
  }

  lemma KidNotBelow(s: Shape, rank: Id -> nat, p: Id, i: nat, d: set<Id>, dc: set<Id>)
    requires Coherent(s, rank) && Owner(s, p) && i < |Kids(s, p)| && Hangs(s, rank, p, i, d)
    requires var c := Kids(s, p)[i]; Owner(s, c) && Hangs(s, rank, c, |Kids(s, c)|, dc)
    ensures var c := Kids(s, p)[i]; c in s.parents && s.parents[c] == p && c != p && c !in d && c !in dc && p !in dc
  {
    hide Coherent;
    var c := Kids(s, p)[i];
    ListAt(s, rank, p);
    assert c in Kids(s, p);
    ParentAt(s, rank, c);
    assert c !in Kids(s, p)[..i];
    RootIsNoLayer(s, rank);
  }

  lemma ClimbBoth(s: Shape, rank: Id -> nat, p: Id, i: nat, d: set<Id>, dc: set<Id>, y: Id)
    requires Coherent(s, rank) && Owner(s, p) && i < |Kids(s, p)| && Hangs(s, rank, p, i, d)
    requires var c := Kids(s, p)[i]; Owner(s, c) && Hangs(s, rank, c, |Kids(s, c)|, dc)
    requires y in d && y in dc
    ensures s.parents[y] in d && s.parents[y] in dc && rank(y) < rank(s.parents[y])
  {
    KidNotBelow(s, rank, p, i, d, dc);
    hide Coherent;
    ParentAt(s, rank, y);
    var c := Kids(s, p)[i];
    RootIsNoLayer(s, rank);
  }

  /** Different children have nothing below them in common. */
  lemma SiblingsApart(s: Shape, rank: Id -> nat, p: Id, i: nat, d: set<Id>, dc: set<Id>)
    requires Coherent(s, rank) && Owner(s, p) && i < |Kids(s, p)| && Hangs(s, rank, p, i, d)
    requires var c := Kids(s, p)[i]; Owner(s, c) && Hangs(s, rank, c, |Kids(s, c)|, dc)
    ensures d !! dc
  {
    hide Coherent, Hangs;
    if !(d !! dc) {
      var y :| y in d && y in dc;
      assert y in d * dc;
      var top := Highest(d * dc, rank);
      ClimbBoth(s, rank, p, i, d, dc, top);
    }
  }

  function NodeFor(s: Shape, id: Id, parent: Id, index: nat): Node
    requires id in s.store
  {
    var l := s.store[id];
    Node(id, parent, index, l.kind, l.props, l.tiles)
  }

  lemma HangsStep(s: Shape, rank: Id -> nat, p: Id, i: nat, d: set<Id>, dc: set<Id>)
    requires Coherent(s, rank) && Owner(s, p) && i < |Kids(s, p)| && Hangs(s, rank, p, i, d)
    requires var c := Kids(s, p)[i]; Owner(s, c) && Hangs(s, rank, c, |Kids(s, c)|, dc)
    ensures Hangs(s, rank, p, i + 1, d + {Kids(s, p)[i]} + dc)
  {
    hide Coherent, Hangs, ParentOk, Listed, Distinct;
    KidNotBelow(s, rank, p, i, d, dc);
    var c, e := Kids(s, p)[i], d + {Kids(s, p)[i]} + dc;
    HangsWithin(s, rank, p, i, d);
    HangsWithin(s, rank, c, |Kids(s, c)|, dc);
    forall y | y in s.parents
      ensures y in e ==>
              (if s.parents[y] == p then y in Kids(s, p)[..i + 1] else s.parents[y] in e)
              && (p != NO_LAYER ==> rank(y) < rank(p))
      ensures s.parents[y] in e ==> y in e
    {
      HangsEach(s, rank, p, i, d, dc, y);
    }
    HangsAre(s, rank, p, i + 1, e);
  }

  lemma HangsWithin(s: Shape, rank: Id -> nat, p: Id, i: nat, d: set<Id>)
    requires Hangs(s, rank, p, i, d)
    ensures d <= s.parents.Keys && i <= |Kids(s, p)| && forall j :: 0 <= j < i ==> Kids(s, p)[j] in d
  {
  }

  lemma HangsAre(s: Shape, rank: Id -> nat, p: Id, i: nat, d: set<Id>)
    requires i <= |Kids(s, p)| && d <= s.parents.Keys && forall j :: 0 <= j < i ==> Kids(s, p)[j] in d
    requires forall y :: y in s.parents ==>
      && (y in d ==>
         (if s.parents[y] == p then y in Kids(s, p)[..i] else s.parents[y] in d)
         && (p != NO_LAYER ==> rank(y) < rank(p)))
      && (s.parents[y] in d ==> y in d)
    ensures Hangs(s, rank, p, i, d)
  {
  }

  lemma HangsAt(s: Shape, rank: Id -> nat, p: Id, i: nat, d: set<Id>, y: Id)
    requires Hangs(s, rank, p, i, d) && y in s.parents
    ensures i <= |Kids(s, p)| && (s.parents[y] in d ==> y in d)
    ensures y in d ==> if s.parents[y] == p then y in Kids(s, p)[..i] else s.parents[y] in d
    ensures y in d && p != NO_LAYER ==> rank(y) < rank(p)
  {
  }

  lemma HangsEach(s: Shape, rank: Id -> nat, p: Id, i: nat, d: set<Id>, dc: set<Id>, y: Id)
    requires Coherent(s, rank) && Owner(s, p) && i < |Kids(s, p)| && Hangs(s, rank, p, i, d)
    requires var c := Kids(s, p)[i]; Owner(s, c) && Hangs(s, rank, c, |Kids(s, c)|, dc)
    requires y in s.parents
    ensures var e := d + {Kids(s, p)[i]} + dc;
            && (y in e ==>
               (if s.parents[y] == p then y in Kids(s, p)[..i + 1] else s.parents[y] in e)
               && (p != NO_LAYER ==> rank(y) < rank(p)))
            && (s.parents[y] in e ==> y in e)
  {
    hide Coherent, Distinct, Hangs, ParentOk, Listed;
    KidNotBelow(s, rank, p, i, d, dc);
    var c := Kids(s, p)[i];
    HangsAt(s, rank, p, i, d, y);
    HangsAt(s, rank, c, |Kids(s, c)|, dc, y);
    KidRank(s, rank, p, c);
    OneKidMore(Kids(s, p), i, y);
    if s.parents[y] == c { KidIn(s, rank, c, |Kids(s, c)|, dc, y); }
  }

  lemma KidRank(s: Shape, rank: Id -> nat, p: Id, c: Id)
    requires Coherent(s, rank) && c in s.parents && s.parents[c] == p
    ensures c != NO_LAYER && (p != NO_LAYER ==> rank(c) < rank(p))
  {
    hide Coherent;
    ParentAt(s, rank, c);
  }

  lemma OneKidMore(list: seq<Id>, i: nat, y: Id)
    requires i < |list|
    ensures y in list[..i + 1] <==> y in list[..i] || y == list[i]
  {
    assert list[..i + 1] == list[..i] + [list[i]];
  }

  lemma KidIn(s: Shape, rank: Id -> nat, c: Id, n: nat, dc: set<Id>, y: Id)
    requires Coherent(s, rank) && Owner(s, c) && Hangs(s, rank, c, n, dc) && n == |Kids(s, c)|
    requires y in s.parents && s.parents[y] == c
    ensures y in dc
  {
    hide Coherent, Distinct;
    ListAt(s, rank, c);
    assert y in Kids(s, c);
  }

  /** All parents of what is recorded below `p` are `p` or recorded. */
  lemma ParentsWithin(s: Shape, rank: Id -> nat, p: Id, i: nat, nodes: seq<Node>, q: Id)
    requires Records(s, rank, p, i, nodes) && q != p && q !in Ids(nodes)
    ensures Recorded(nodes, q) == []
  {
    hide Recorded, IndexCounts, DistinctIds;
    forall k | 0 <= k < |nodes| ensures nodes[k].parent != q {
      assert NodeOk(s, p, nodes, k);
      assert nodes[k].id in Ids(nodes);
    }
    RecordedNone(nodes, q);
  }

  lemma RecordsStart(s: Shape, rank: Id -> nat, p: Id)
    ensures Records(s, rank, p, 0, [])
  {
  }

  lemma RecordsStep(s: Shape, rank: Id -> nat, p: Id, i: nat, nodes: seq<Node>, sub: seq<Node>)
    requires Coherent(s, rank) && Owner(s, p) && i < |Kids(s, p)| && Records(s, rank, p, i, nodes)
    requires var c := Kids(s, p)[i]; Owner(s, c) && c in s.store && Records(s, rank, c, |Kids(s, c)|, sub)
    ensures Records(s, rank, p, i + 1, nodes + [NodeFor(s, Kids(s, p)[i], p, i)] + sub)
  {
    hide Coherent, Hangs, Recorded, NodeOk, DistinctIds;
    var c := Kids(s, p)[i];
    var n := NodeFor(s, c, p, i);
    var d, dc := Ids(nodes), Ids(sub);
    SiblingsApart(s, rank, p, i, d, dc);
    KidNotBelow(s, rank, p, i, d, dc);
    HangsStep(s, rank, p, i, d, dc);
    var all := nodes + [n] + sub;
    OneNode(n);
    IdsJoin(nodes, [n]);
    IdsJoin(nodes + [n], sub);
    assert Ids(all) == d + {c} + dc;
    DistinctJoin(nodes, [n]);
    DistinctJoin(nodes + [n], sub);
    StepLists(s, rank, p, i, nodes, sub, p);
    forall q | q in Ids(all) ensures Recorded(all, q) == Kids(s, q) { StepLists(s, rank, p, i, nodes, sub, q); }
    forall k | 0 <= k < |all| ensures NodeOk(s, p, all, k) { StepNode(s, rank, p, i, nodes, sub, k); }
  }

  lemma OneNode(n: Node)
    ensures Ids([n]) == {n.id} && DistinctIds([n])
            && forall q :: Recorded([n], q) == if n.parent == q then [n.id] else []
  {
    assert [n][0].id in Ids([n]);
  }

  lemma StepLists(s: Shape, rank: Id -> nat, p: Id, i: nat, nodes: seq<Node>, sub: seq<Node>, q: Id)
    requires Coherent(s, rank) && Owner(s, p) && i < |Kids(s, p)| && Records(s, rank, p, i, nodes)
    requires var c := Kids(s, p)[i]; Owner(s, c) && c in s.store && Records(s, rank, c, |Kids(s, c)|, sub)
    requires Ids(nodes) !! Ids(sub) && (q == p || q == Kids(s, p)[i] || q in Ids(nodes) || q in Ids(sub))
    ensures var all := nodes + [NodeFor(s, Kids(s, p)[i], p, i)] + sub;
            Recorded(all, q) == if q == p then Kids(s, p)[..i + 1] else Kids(s, q)
  {
    hide Coherent, Hangs, Recorded, NodeOk, DistinctIds;
    var c := Kids(s, p)[i];
    var n := NodeFor(s, c, p, i);
    KidNotBelow(s, rank, p, i, Ids(nodes), Ids(sub));
    TopNotRecorded(s, rank, p, i, nodes);
    OneNode(n);
    RecordedJoin(nodes, [n], q);
    RecordedJoin(nodes + [n], sub, q);
    if q == p {
      ParentsWithin(s, rank, c, |Kids(s, c)|, sub, q);
    } else if q == c {
      ParentsWithin(s, rank, p, i, nodes, q);
    } else if q in Ids(nodes) {
      ParentsWithin(s, rank, c, |Kids(s, c)|, sub, q);
    } else {
      ParentsWithin(s, rank, p, i, nodes, q);
    }
  }

  lemma TopNotRecorded(s: Shape, rank: Id -> nat, p: Id, i: nat, nodes: seq<Node>)
    requires Coherent(s, rank) && Owner(s, p) && Records(s, rank, p, i, nodes)
    ensures p !in Ids(nodes)
  {
    RootIsNoLayer(s, rank);
  }

  /** A recorded node stays good when more is put in front and behind, as long as its parent's
      recorded children all come from the same part. */
  lemma NodeShifts(s: Shape, p: Id, p': Id, front: seq<Node>, nodes: seq<Node>, back: seq<Node>, k: nat)
    requires k < |nodes| && NodeOk(s, p, nodes, k) && Recorded(front, nodes[k].parent) == []
    requires nodes[k].parent == p ==> p == p' || exists j :: 0 <= j < |front| && front[j].id == p
    ensures NodeOk(s, p', front + nodes + back, |front| + k)
  {
    hide Recorded, Stands;
    var all := front + nodes + back;
    assert all[..|front| + k] == front + nodes[..k];
    RecordedJoin(front, nodes[..k], nodes[k].parent);
    assert all[|front| + k] == nodes[k];
    if nodes[k].parent == p {
      if p != p' {
        var j :| 0 <= j < |front| && front[j].id == p;
        assert all[j].id == p;
      }
    } else {
      var j :| 0 <= j < k && nodes[j].id == nodes[k].parent;
      assert all[|front| + j].id == nodes[k].parent;
    }
  }

  lemma NodeForOk(s: Shape, rank: Id -> nat, p: Id, i: nat, nodes: seq<Node>, sub: seq<Node>)
    requires Coherent(s, rank) && Owner(s, p) && i < |Kids(s, p)| && Records(s, rank, p, i, nodes)
    requires Kids(s, p)[i] in s.store
    ensures NodeOk(s, p, nodes + [NodeFor(s, Kids(s, p)[i], p, i)] + sub, |nodes|)
  {
    hide Coherent, Hangs, Recorded, DistinctIds;
    var n := NodeFor(s, Kids(s, p)[i], p, i);
    ListAt(s, rank, p);
    assert Kids(s, p)[i] in Kids(s, p);
    assert (nodes + [n] + sub)[..|nodes|] == nodes;
  }

  lemma SubParent(s: Shape, rank: Id -> nat, c: Id, i: nat, sub: seq<Node>, m: nat)
    requires Records(s, rank, c, i, sub) && m < |sub|
    ensures sub[m].parent == c || sub[m].parent in Ids(sub)
  {
    hide Recorded, DistinctIds, IndexCounts;
    assert NodeOk(s, c, sub, m);
    assert sub[m].id in Ids(sub);
  }

  lemma StepNode(s: Shape, rank: Id -> nat, p: Id, i: nat, nodes: seq<Node>, sub: seq<Node>, k: nat)
    requires Coherent(s, rank) && Owner(s, p) && i < |Kids(s, p)| && Records(s, rank, p, i, nodes)
    requires var c := Kids(s, p)[i]; Owner(s, c) && c in s.store && Records(s, rank, c, |Kids(s, c)|, sub)
    requires Ids(nodes) !! Ids(sub)
    requires k < |nodes| + 1 + |sub|
    ensures NodeOk(s, p, nodes + [NodeFor(s, Kids(s, p)[i], p, i)] + sub, k)
  {
    hide Coherent, Hangs, Recorded, NodeOk, DistinctIds;
    var c := Kids(s, p)[i];
    var n := NodeFor(s, c, p, i);
    KidNotBelow(s, rank, p, i, Ids(nodes), Ids(sub));
    if k < |nodes| {
      assert [] + nodes + ([n] + sub) == nodes + [n] + sub;
      RecordedNone([], nodes[k].parent);
      NodeShifts(s, p, p, [], nodes, [n] + sub, k);
    } else if k == |nodes| {
      NodeForOk(s, rank, p, i, nodes, sub);
    } else {
      var m := k - |nodes| - 1;
      SubParent(s, rank, c, |Kids(s, c)|, sub, m);
      OneNode(n);
      RecordedJoin(nodes, [n], sub[m].parent);
      ParentsWithin(s, rank, p, i, nodes, sub[m].parent);
      assert (nodes + [n])[|nodes|].id == c;
      NodeShifts(s, c, p, nodes + [n], sub, [], m);
      assert (nodes + [n]) + sub + [] == nodes + [n] + sub;
    }
  }

  /** `collectNodes`: parents first, in list order. */
  method CollectNodes(tree: LayerTree, list: seq<Id>, p: Id, out: seq<Node>, ghost bound: nat)
          returns (res: seq<Node>, ghost nodes: seq<Node>)
    requires tree.Valid() && Owner(tree.View(), p) && list == Kids(tree.View(), p)
    requires forall j :: 0 <= j < |list| ==> tree.rank(list[j]) < bound
    ensures res == out + nodes && Records(tree.View(), tree.rank, p, |list|, nodes)
    decreases bound
  {
    hide Coherent, Records;
    ghost var s := tree.View();
    res, nodes := out, [];
    RecordsStart(s, tree.rank, p);
    var i := 0;
    while i < |list|
      invariant 0 <= i <= |list| && res == out + nodes && Records(s, tree.rank, p, i, nodes)
    {
      KidAt(s, tree.rank, p, i);
      var l := tree.store[list[i]];
      var n := Node(list[i], p, i, l.kind, l.props, l.tiles);
      res := res + [n];
      ghost var sub;
      res, sub := CollectNodes(tree, l.children, list[i], res, tree.rank(list[i]));
      RecordsStep(s, tree.rank, p, i, nodes, sub);
      nodes := nodes + [n] + sub;
      i := i + 1;
    }
  }

  lemma KidAt(s: Shape, rank: Id -> nat, p: Id, i: nat)
    requires Coherent(s, rank) && Owner(s, p) && i < |Kids(s, p)|
    ensures var c := Kids(s, p)[i];
            && c in s.parents && c in s.store && c != NO_LAYER && s.parents[c] == p
               && (p != NO_LAYER ==> rank(c) < rank(p))
            && forall j :: 0 <= j < |Kids(s, c)| ==> rank(Kids(s, c)[j]) < rank(c)
  {
    hide Coherent, Distinct;
    ListAt(s, rank, p);
    var c := Kids(s, p)[i];
    assert c in Kids(s, p);
    ParentAt(s, rank, c);
    ListAt(s, rank, c);
    forall j | 0 <= j < |Kids(s, c)| ensures rank(Kids(s, c)[j]) < rank(c) {
      assert Kids(s, c)[j] in Kids(s, c);
      ParentAt(s, rank, Kids(s, c)[j]);
    }
  }

  /** From the roots, everything is recorded. */
  lemma AllBelow(s: Shape, rank: Id -> nat, d: set<Id>)
    requires Coherent(s, rank) && Hangs(s, rank, NO_LAYER, |s.roots|, d)
    ensures d == s.parents.Keys
  {
    hide Coherent;
    forall y | y in s.parents ensures y in d {
      if y !in d {
        assert y in s.parents.Keys - d;
        var top := Highest(s.parents.Keys - d, rank);
        ParentAt(s, rank, top);
        ListAt(s, rank, NO_LAYER);
        NotOutside(s, rank, d, top);
      }
    }
  }

  lemma NotOutside(s: Shape, rank: Id -> nat, d: set<Id>, y: Id)
    requires Coherent(s, rank) && Hangs(s, rank, NO_LAYER, |s.roots|, d) && y in s.parents
    ensures y in d || (s.parents[y] in s.parents.Keys - d && rank(y) < rank(s.parents[y]))
  {
    hide Coherent, Distinct;
    ParentAt(s, rank, y);
    ListAt(s, rank, NO_LAYER);
    if s.parents[y] == NO_LAYER {
      assert y in Kids(s, NO_LAYER);
    }
  }

  lemma RecordedWhole(s: Shape, rank: Id -> nat, nodes: seq<Node>)
    requires Coherent(s, rank) && Records(s, rank, NO_LAYER, |s.roots|, nodes)
    requires forall id :: id in s.store ==> 0.0 <= s.store[id].props.opacity <= 1.0
    ensures WellFormed(nodes) && Matches(s, nodes)
  {
    hide Coherent, Recorded, IndexCounts, DistinctIds, Hangs;
    AllBelow(s, rank, Ids(nodes));
    assert s.roots[..|s.roots|] == s.roots;
    forall k | 0 <= k < |nodes|
      ensures nodes[k].id != NO_LAYER && 0.0 <= nodes[k].props.opacity <= 1.0 && ParentFirst(nodes, k)
              && IndexCounts(nodes, k) && Stands(s, nodes[k])
    {
      assert NodeOk(s, NO_LAYER, nodes, k);
      ParentAt(s, rank, nodes[k].id);
      if nodes[k].parent != NO_LAYER {
        var j :| 0 <= j < k && nodes[j].id == nodes[k].parent;
        assert NodeOk(s, NO_LAYER, nodes, j);
      }
    }
  }

  /** Records the whole tree. */
  method TakeSnapshot(tree: LayerTree) returns (snap: DocSnapshot)
    requires tree.Valid()
    ensures WellFormed(snap.nodes) && Matches(tree.View(), snap.nodes)
    ensures snap.canvas == tree.canvas && snap.active == tree.active
  {
    hide Coherent, Records;
    ghost var bound := 0;
    if tree.parents.Keys != {} {
      ghost var top := Highest(tree.parents.Keys, tree.rank);
      bound := tree.rank(top) + 1;
    }
    RootsBounded(tree.View(), tree.rank, bound);
    var nodes;
    ghost var same;
    nodes, same := CollectNodes(tree, tree.roots, NO_LAYER, [], bound);
    assert [] + same == same;
    RecordedWhole(tree.View(), tree.rank, same);
    snap := DocSnapshot(nodes, tree.canvas, tree.active);
  }

  lemma RootsBounded(s: Shape, rank: Id -> nat, bound: nat)
    requires Coherent(s, rank) && forall y :: y in s.parents ==> rank(y) < bound
    ensures forall j :: 0 <= j < |s.roots| ==> rank(s.roots[j]) < bound
  {
    hide Coherent;
    forall j | 0 <= j < |s.roots| ensures rank(s.roots[j]) < bound {
      KidAt(s, rank, NO_LAYER, j);
    }
  }
}
