/** What a reattachment can do to the walk up the parents (`isDescendant` in core/src/layer.cpp), which ends
    at the root or at the layer it looks for. */
module Circles {
  import opened Forest
  import opened Geometry
  import opened Layers
  import opened Snapshot

  /** Where `n` steps up from `c` lead; a layer that is not attached has no parent. */
  function Up(parents: map<Id, Id>, c: Id, n: nat): Id {
    if n == 0 then c
    else
      var u := Up(parents, c, n - 1);
      if u in parents then parents[u] else NO_LAYER
  }

  /** Does the walk from `candidate` in search of `ancestor` come to an end? */
  ghost predicate Returns(parents: map<Id, Id>, candidate: Id, ancestor: Id) {
    exists n: nat :: n > 0 && (Up(parents, candidate, n) == NO_LAYER || Up(parents, candidate, n) == ancestor)
  }

  ghost predicate Meets(parents: map<Id, Id>, candidate: Id, y: Id) {
    exists n: nat :: n > 0 && Up(parents, candidate, n) == y
  }

  /** Hanging `x` below `p` takes `p`, or a layer above it, along. */
  ghost predicate Circular(s: Shape, x: Id, p: Id) {
    exists a :: a in Named(s.store, x) && (a == p || Below(s.parents, p, a))
  }

  lemma {:induction false} UpFirst(parents: map<Id, Id>, c: Id, n: nat)
    requires c in parents
    ensures Up(parents, c, n + 1) == Up(parents, parents[c], n)
  {
    if n > 0 { UpFirst(parents, c, n - 1); }
  }

  // ---- a circle: the walk stays inside ----------------------------------------------------------------

  /** Named by `x`, or below something that is. */
  ghost predicate Inside(s: Shape, x: Id, z: Id) {
    z in Named(s.store, x) || (z in s.parents && exists a :: a in Named(s.store, x) && Below(s.parents, z, a))
  }

  lemma StepInside(s: Shape, x: Id, p: Id, i: nat, s': Shape, z: Id)
    requires Owner(s, p) && (forall c :: c in s.parents ==> c in s.store) && i <= |Kids(s, p)| && NO_LAYER !in s.store
    requires Hung(s, x, p, i, s') && Circular(s, x, p) && Inside(s, x, z)
    ensures z in s'.parents && z != NO_LAYER && Inside(s, x, s'.parents[z])
  {
    hide Below, InsertAt;
    if z == x {
      var a :| a in Named(s.store, x) && (a == p || Below(s.parents, p, a));
      BelowStep(s.parents, p, a);
    } else if z !in Named(s.store, x) {
      var a :| a in Named(s.store, x) && Below(s.parents, z, a);
      BelowStep(s.parents, z, a);
      BelowStep(s.parents, s.parents[z], a);
    }
  }

  lemma {:induction false} WalkInside(s: Shape, x: Id, p: Id, i: nat, s': Shape, n: nat)
    requires x in s.store && Owner(s, p) && (forall c :: c in s.parents ==> c in s.store) && i <= |Kids(s, p)|
    requires NO_LAYER !in s.store && Hung(s, x, p, i, s') && Circular(s, x, p)
    ensures var z := Up(s'.parents, x, n); Inside(s, x, z) && z in s'.parents && z != NO_LAYER
  {
    hide Circular, Hung, Inside;
    if n == 0 {
      assert Inside(s, x, x) by { NamesItself(s, x); }
    } else {
      WalkInside(s, x, p, i, s', n - 1);
      StepInside(s, x, p, i, s', Up(s'.parents, x, n - 1));
    }
    StepInside(s, x, p, i, s', Up(s'.parents, x, n));
  }

  lemma NamesItself(s: Shape, x: Id)
    requires x in s.store
    ensures Inside(s, x, x)
  {
    NamesSelf(s.store, x);
  }

  // ---- no circle: the walk gets out ------------------------------------------------------------------

  ghost function Higher(s: Shape, rank: Id -> nat, z: Id): set<Id> {
    set y | y in s.parents && rank(y) > rank(z)
  }

  lemma StepOutside(s: Shape, rank: Id -> nat, x: Id, p: Id, i: nat, s': Shape, z: Id)
    requires Coherent(s, rank) && Owner(s, p) && (forall c :: c in s.parents ==> c in s.store) && i <= |Kids(s, p)|
    requires Hung(s, x, p, i, s') && z in s.parents && !Inside(s, x, z)
    ensures var w := s.parents[z];
            && z in s'.parents && s'.parents[z] == w
            && (w != NO_LAYER ==> w in s.parents && rank(z) < rank(w) && !Inside(s, x, w))
  {
    hide Coherent, Below, InsertAt, Named;
    ParentAt(s, rank, z);
    forall a | a in Named(s.store, x) ensures !Below(s.parents, z, a) {}
    forall a | a in Named(s.store, x) && s.parents[z] != NO_LAYER
      ensures a != s.parents[z] && !Below(s.parents, s.parents[z], a)
    {
      BelowStep(s.parents, z, a);
    }
  }

  lemma TopHung(s: Shape, x: Id, p: Id, i: nat, s': Shape)
    requires Owner(s, p) && (forall c :: c in s.parents ==> c in s.store) && i <= |Kids(s, p)|
    requires x in s.store && Hung(s, x, p, i, s')
    ensures x in s'.parents && s'.parents[x] == p
    ensures !Circular(s, x, p) && p != NO_LAYER ==> !Inside(s, x, p)
  {
    hide Below, InsertAt;
    NamesSelf(s.store, x);
  }

  /** What is not below anything named climbs out as before. */
  lemma {:induction false} ClimbsOut(s: Shape, rank: Id -> nat, x: Id, p: Id, i: nat, s': Shape, z: Id) returns (n: nat)
    requires Coherent(s, rank) && Owner(s, p) && (forall c :: c in s.parents ==> c in s.store) && i <= |Kids(s, p)|
    requires Hung(s, x, p, i, s') && z in s.parents && !Inside(s, x, z)
    ensures Up(s'.parents, z, n) == NO_LAYER
    decreases Higher(s, rank, z)
  {
    hide Coherent, Hung, Inside;
    var w := s.parents[z];
    StepOutside(s, rank, x, p, i, s', z);
    if w == NO_LAYER {
      UpFirst(s'.parents, z, 0);
      n := 1;
    } else {
      assert w in Higher(s, rank, z) && w !in Higher(s, rank, w);
      var m := ClimbsOut(s, rank, x, p, i, s', w);
      UpFirst(s'.parents, z, m);
      n := m + 1;
    }
  }

  /** After hanging up `x`, the walk up from it reaches the root iff nothing it names was at or above the
      place. Otherwise the parents run in a circle, and the walk ends only if it meets what it looks for. */
  lemma HungCircle(s: Shape, rank: Id -> nat, x: Id, p: Id, i: nat, s': Shape)
    requires Coherent(s, rank) && x in s.store && x !in s.parents && Owner(s, p) && i <= |Kids(s, p)|
    requires (forall c :: c in s.parents ==> c in s.store) && Hung(s, x, p, i, s')
    ensures (exists n: nat :: Up(s'.parents, x, n) == NO_LAYER) <==> !Circular(s, x, p)
    ensures Circular(s, x, p) ==>
              forall y :: Returns(s'.parents, x, y) <==> Meets(s'.parents, x, y)
  {
    hide Coherent, Below, InsertAt, Named, Hung, Circular, Inside;
    RootNotStored(s, rank);
    if Circular(s, x, p) {
      forall n: nat ensures Up(s'.parents, x, n) != NO_LAYER { WalkInside(s, x, p, i, s', n); }
      forall y ensures Returns(s'.parents, x, y) <==> Meets(s'.parents, x, y) {
        if Returns(s'.parents, x, y) {
          var n: nat :| n > 0 && (Up(s'.parents, x, n) == NO_LAYER || Up(s'.parents, x, n) == y);
          assert Up(s'.parents, x, n) == y;
        }
      }
    } else {
      var n := GetsOut(s, rank, x, p, i, s');
    }
  }

  lemma GetsOut(s: Shape, rank: Id -> nat, x: Id, p: Id, i: nat, s': Shape) returns (n: nat)
    requires Coherent(s, rank) && x in s.store && x !in s.parents && Owner(s, p) && i <= |Kids(s, p)|
    requires (forall c :: c in s.parents ==> c in s.store) && Hung(s, x, p, i, s') && !Circular(s, x, p)
    ensures Up(s'.parents, x, n) == NO_LAYER
  {
    hide Coherent, Hung, Inside, Circular;
    TopHung(s, x, p, i, s');
    UpFirst(s'.parents, x, 0);
    if p == NO_LAYER {
      n := 1;
    } else {
      var m := ClimbsOut(s, rank, x, p, i, s', p);
      UpFirst(s'.parents, x, m);
      n := m + 1;
    }
  }

  // ---- it happens ----------------------------------------------------------------------------------

  /** Layers 1 and 2 are groups, 3 is a raster; these are the lists of the groups. */
  function Three(outer: seq<Id>, inner: seq<Id>): map<Id, Layer> {
    map[1 := NewLayer(Group, "").(children := outer), 2 := NewLayer(Group, "").(children := inner),
        3 := NewLayer(Raster, "")]
  }

  /** A group in a group, and a raster in that. */
  function Nested(): Shape { Shape(Three([2], [3]), map[1 := NO_LAYER, 2 := 1, 3 := 2], [1]) }

  /** The inner group went to the root; */
  function Pulled(): Shape { Shape(Three([], [3]), map[1 := NO_LAYER, 2 := NO_LAYER, 3 := 2], [1, 2]) }

  /** the outer one went below it; */
  function Turned(): Shape { Shape(Three([], [3, 1]), map[1 := 2, 2 := NO_LAYER, 3 := 2], [2]) }

  /** everything was removed; */
  function Emptied(): Shape { Shape(Three([], [3, 1]), map[], []) }

  /** the outer group came back to its recorded place; */
  function Tangled(): Shape { Shape(Three([], [3, 1]), map[1 := NO_LAYER], [1]) }

  /** and the inner one to its own. Its list still names the outer one: now 1 is below 2 and 2 below 1. */
  function Knotted(): Shape { Shape(Three([2], [3, 1]), map[1 := 2, 2 := 1, 3 := 2], [1]) }

  ghost function Depth(): Id -> nat { c => if c == 2 then 2 else if c == 1 then 1 else 0 }

  lemma ThreeAre(outer: seq<Id>, inner: seq<Id>)
    ensures var m := Three(outer, inner);
            && m.Keys == {1, 2, 3} && m[1].children == outer && m[2].children == inner && m[3].children == []
            && m[1].kind == m[2].kind == Group && m[3].kind == Raster
  {
  }

  lemma ThreeAlike(a: seq<Id>, b: seq<Id>, c: seq<Id>, d: seq<Id>)
    ensures SameButLists(Three(a, b), Three(c, d))
  {
  }

  /** The lists are all that can differ. */
  lemma ThreeKnown(a: seq<Id>, b: seq<Id>, m: map<Id, Layer>)
    requires SameButLists(Three(a, b), m)
    ensures 1 in m && 2 in m && 3 in m && (m[3].children == [] ==> m == Three(m[1].children, m[2].children))
  {
    hide Three;
    ThreeAre(a, b);
    var c := Three(m[1].children, m[2].children);
    ThreeAre(m[1].children, m[2].children);
    ThreeAlike(a, b, m[1].children, m[2].children);
    if m[3].children == [] { SameLists(Three(a, b), m, c); }
  }

  lemma TangledLists(y: Id)
    requires y in {1, 2, 3}
    ensures y in Tangled().store && ListOk(Tangled().store, Depth(), y)
  {
    hide Three;
    ThreeAre([], [3, 1]);
  }

  lemma TangledParents(c: Id)
    requires c in Tangled().parents
    ensures ParentOk(Tangled(), Depth(), c)
  {
    hide Three;
  }

  lemma TangledRoots(p: Id)
    requires Owner(Tangled(), p)
    ensures Listed(Tangled(), p)
  {
    hide Three;
    ThreeAre([], [3, 1]);
  }

  lemma TangledIsForest()
    ensures Coherent(Tangled(), Depth())
  {
    hide Three, Grounded, Listed, ListOk, ParentOk;
    ThreeAre([], [3, 1]);
    var s := Tangled();
    forall y | y in s.store ensures ListOk(s.store, Depth(), y) { TangledLists(y); }
    forall c | c in s.parents ensures ParentOk(s, Depth(), c) { TangledParents(c); }
    forall p | Owner(s, p) ensures Listed(s, p) { TangledRoots(p); }
    CoherentFrom(s, Depth());
  }

  lemma AllNamed()
    ensures Named(Three([], [3, 1]), 2) == {1, 2, 3} && Named(Three([], [3, 1]), 1) == {1}
  {
    hide Distinct, Named, Names, Three, Coherent, Grounded;
    var m := Three([], [3, 1]);
    ThreeAre([], [3, 1]);
    TangledIsForest();
    GroundAt(Tangled(), Depth(), 2);
    NamedOnly(m, Depth(), 1, {1});
    var t := {1, 2, 3};
    assert 1 in m[2].children && 3 in m[2].children;
    assert HasOwner(m, t, 1) && HasOwner(m, t, 3);
    NamedOnly(m, Depth(), 2, t);
  }

  /** There is one way for the inner group to come back, and it closes a circle. */
  lemma Knotting()
    ensures Hung(Tangled(), 2, 1, 0, Knotted()) && Circular(Tangled(), 2, 1)
  {
    hide Named, Three;
    AllNamed();
    ThreeAre([], [3, 1]);
    KnottedList();
  }

  lemma KnottedList()
    ensures InsertAt([], 0, 2) == [2]
    ensures 1 in Three([], [3, 1]) && SetKids(Tangled(), 1, [2]) == Shape(Three([2], [3, 1]), map[1 := NO_LAYER], [1])
  {
  }

  lemma KnottedOnly(s': Shape)
    requires Hung(Tangled(), 2, 1, 0, s')
    ensures s' == Knotted()
  {
    hide Named, Three, Enrolled;
    AllNamed();
    ThreeAre([], [3, 1]);
    KnottedList();
    OneWay(s'.parents);
    assert s'.(parents := Tangled().parents) == SetKids(Tangled(), 1, [2]);
  }

  lemma OneWay(after: map<Id, Id>)
    requires Enrolled(Three([], [3, 1]), 2, 1, {1, 2, 3}, map[1 := NO_LAYER], after)
    ensures after == map[1 := 2, 2 := 1, 3 := 2]
  {
    hide Three;
    ThreeAre([], [3, 1]);
    assert after[1] == 2 && after[3] == 2;
    assert after.Keys == {1, 2, 3};
  }

  /** The next node is 3, which is attached by now and is to be moved below 2. Before that move the original
      walks up from 2 to see that 3 is not above it; it never gets to an end. */
  lemma WalkForever()
    ensures 3 in Knotted().parents && 2 in Knotted().parents && !Returns(Knotted().parents, 2, 3)
  {
    forall n: nat ensures Up(Knotted().parents, 2, n) in {1, 2} { Round(n); }
  }

  lemma {:induction false} Round(n: nat)
    ensures Up(Knotted().parents, 2, n) == if n % 2 == 0 then 2 else 1
  {
    if n > 0 { Round(n - 1); }
  }

  // ---- the steps that lead there -----------------------------------------------------------------------

  function One(): Shape { Shape(map[1 := NewLayer(Group, "")], map[1 := NO_LAYER], [1]) }

  function Two(): Shape {
    Shape(map[1 := NewLayer(Group, "").(children := [2]), 2 := NewLayer(Group, "")], map[1 := NO_LAYER, 2 := 1], [1])
  }

  lemma Nesting()
    ensures var none := Shape(map[], map[], []);
            CanHold(none, NO_LAYER) && Added(none, 1, NewLayer(Group, ""), NO_LAYER, -1) == One()
    ensures CanHold(One(), 1) && Added(One(), 2, NewLayer(Group, ""), 1, -1) == Two()
    ensures CanHold(Two(), 2) && Added(Two(), 3, NewLayer(Raster, ""), 2, -1) == Nested()
  {
    assert InsertAt([], 0, 1) == [1] && InsertAt([], 0, 2) == [2] && InsertAt([], 0, 3) == [3];
  }

  /** Layers that differ in their lists only, and not in those, are the same. */
  lemma SameLists(a: map<Id, Layer>, b: map<Id, Layer>, c: map<Id, Layer>)
    requires SameButLists(a, b) && SameButLists(a, c) && forall q :: q in a ==> b[q].children == c[q].children
    ensures b == c
  {
    forall q | q in a ensures b[q] == c[q] {
      assert b[q].(children := a[q].children) == a[q] == c[q].(children := a[q].children);
      assert b[q] == a[q].(children := b[q].children) && c[q] == a[q].(children := c[q].children);
    }
  }

  lemma ShortLists()
    ensures Without([2], 2) == [] && Without([1, 2], 1) == [2]
    ensures InsertAt([1], 1, 2) == [1, 2] && InsertAt([3], 1, 1) == [3, 1]
  {
    assert [1, 2][1..] == [2] && [2][1..] == [];
  }

  lemma Pulling(s': Shape)
    requires MovedTo(Nested(), 2, NO_LAYER, -1, s')
    ensures s' == Pulled()
  {
    hide Without, InsertAt, Three, SameButLists;
    ThreeAre([2], [3]);
    ShortLists();
    ThreeKnown([2], [3], s'.store);
    assert Kids(s', 1) == Without([2], 2) && Kids(s', 2) == [3] && Kids(s', 3) == [];
    assert Kids(s', NO_LAYER) == InsertAt([1], 1, 2);
  }

  lemma Turning(s': Shape)
    requires MovedTo(Pulled(), 1, 2, -1, s')
    ensures s' == Turned()
  {
    hide Without, InsertAt, Three, SameButLists;
    ThreeAre([], [3]);
    ShortLists();
    ThreeKnown([], [3], s'.store);
    assert Kids(s', 1) == [] && Kids(s', 2) == InsertAt([3], 1, 1) && Kids(s', 3) == [];
    assert Kids(s', NO_LAYER) == Without([1, 2], 1);
  }

  lemma MayMove()
    ensures CanMove(Nested(), 2, NO_LAYER) && CanMove(Pulled(), 1, 2) && 2 in Turned().parents
  {
    hide Below;
    BelowStep(Pulled().parents, 2, 1);
  }

  lemma Emptying(s': Shape)
    requires Removed(Turned(), 2, s')
    ensures s' == Emptied()
  {
    hide Without, Below, Three, SameButLists;
    ThreeAre([], [3, 1]);
    ShortLists();
    var s := Turned();
    BelowStep(s.parents, 1, 2);
    BelowStep(s.parents, 3, 2);
    assert Sub(s, 2) == {1, 2, 3};
    ThreeKnown([], [3, 1], s'.store);
    assert Kids(s', 1) == [] && Kids(s', 2) == [3, 1] && Kids(s', 3) == [] && Kids(s', NO_LAYER) == Without([2], 2);
  }

  lemma Returning(s': Shape)
    requires Hung(Emptied(), 1, NO_LAYER, 0, s')
    ensures s' == Tangled()
  {
    hide Named, Three;
    AllNamed();
    assert InsertAt([], 0, 1) == [1];
  }

  lemma FirstWhole()
    ensures Whole(Emptied(), 1)
  {
    hide Named, Three;
    AllNamed();
  }

  /** The whole of it, on a new tree: three layers are made and recorded, two are moved, one is removed with
      all it holds, and two come back to their recorded places as restoring would have them. */
  method TieKnot(size: Size) returns (tree: LayerTree, snap: DocSnapshot)
    ensures fresh(tree) && WellFormed(snap.nodes) && Matches(Nested(), snap.nodes)
    ensures tree.View() == Knotted() && !Returns(tree.parents, 2, 3)
  {
    hide Coherent, Added, MovedTo, Removed, Hung, Matches, WellFormed, Named, NewLayer, InRange, Whole, Sub, Doubled,
         SameButLists, CanMove, Nested, Knotted, Returns, Three;
    tree, snap := Tangle(size);
    ThreeAre([], [3, 1]);
    var r, clean := tree.Reattach(2, 1, 0);
    KnottedOnly(tree.View());
    WalkForever();
  }

  method Tangle(size: Size) returns (tree: LayerTree, snap: DocSnapshot)
    ensures fresh(tree) && tree.Valid() && WellFormed(snap.nodes) && Matches(Nested(), snap.nodes)
    ensures tree.View() == Tangled()
  {
    hide Coherent, Added, MovedTo, Removed, Hung, Matches, WellFormed, Named, NewLayer, InRange, Whole, Sub, Doubled,
         SameButLists, CanMove, Nested, Pulled, Turned, Three;
    tree := Nest(size);
    snap := TakeSnapshot(tree);
    MayMove();
    ThreeAre([], [3, 1]);
    var r := tree.Move(2, NO_LAYER, -1);
    Pulling(tree.View());
    r := tree.Move(1, 2, -1);
    Turning(tree.View());
    r := tree.Remove(2);
    Emptying(tree.View());
    var clean;
    r, clean := tree.Reattach(1, NO_LAYER, 0);
    FirstWhole();
    Returning(tree.View());
  }

  method Nest(size: Size) returns (tree: LayerTree)
    ensures fresh(tree) && tree.Valid() && tree.View() == Nested()
  {
    hide Coherent, Added, InRange, NewLayer, Nested, One, Two, CanHold;
    Nesting();
    tree := new LayerTree(size);
    var a := tree.Add(Group, "", NO_LAYER, -1);
    var g := tree.Add(Group, "", 1, -1);
    var x := tree.Add(Raster, "", 2, -1);
  }
}
