/** The layer tree (core/src/layer.cpp). Three structures say the same thing in three ways, the index,
    the parent map and the child lists, and every operation must keep them in step. */
module Layers {
  import Blend
  import opened Geometry
  import opened Forest

  datatype Error = InvalidArgument | NotFound | Broken

  datatype Result<T> = Ok(value: T) | Err(error: Error)

  function ClampIndex(index: int, size: nat): (i: nat)
    ensures 0 <= index <= size ==> i == index
    ensures !(0 <= index <= size) ==> i == size
  {
    if index < 0 || index > size then size else index
  }

  /** A layer with the defaults of a new one. */
  function NewLayer(kind: Kind, name: string): Layer {
    Layer(kind, Props(name, 1.0, 0, true, false, false), map[], NoMask, [])
  }

  /** May a layer be put below `p`? */
  predicate CanHold(s: Shape, p: Id) {
    p == NO_LAYER || (p in s.parents && p in s.store && s.store[p].kind == Group)
  }

  /** The forest after moving `id` below `p`. */
  function Moved(s: Shape, id: Id, p: Id, index: int): Shape
    requires id in s.parents && (s.parents[id] == NO_LAYER || s.parents[id] in s.store)
             && (p == NO_LAYER || p in s.store)
  {
    var from := s.parents[id];
    var s' := SetKids(s, from, Without(Kids(s, from), id)).(parents := s.parents[id := p]);
    SetKids(s', p, InsertAt(Kids(s', p), ClampIndex(index, |Kids(s', p)|), id))
  }

  /** What a move does to the lists and parents, in order or not. */
  function Relocated(s: Shape, id: Id, p: Id, index: int): Shape
    requires id in s.parents && (s.parents[id] == NO_LAYER || s.parents[id] in s.store)
             && (p == NO_LAYER || p in s.store)
  {
    var from := s.parents[id];
    var s' := SetKids(s, from, DropFirst(Kids(s, from), id)).(parents := s.parents[id := p]);
    SetKids(s', p, InsertAt(Kids(s', p), ClampIndex(index, |Kids(s', p)|), id))
  }

  /** The forest with a new layer `x` below `p`. */
  function Added(s: Shape, x: Id, layer: Layer, p: Id, index: int): Shape
    requires CanHold(s, p)
  {
    var s' := s.(store := s.store[x := layer], parents := s.parents[x := p]);
    SetKids(s', p, InsertAt(Kids(s', p), ClampIndex(index, |Kids(s', p)|), x))
  }

  /** What the tree knows about layers by id: the index, their parents, and which one is active. */
  datatype Registry = Registry(index: set<Id>, parents: map<Id, Id>, active: Id)

  function Drop(g: Registry, t: set<Id>): Registry {
    Registry(g.index - t, g.parents - t, if g.active in t then NO_LAYER else g.active)
  }

  lemma DropTwice(g: Registry, t: set<Id>, u: set<Id>)
    ensures Drop(Drop(g, t), u) == Drop(g, t + u) && Drop(g, {}) == g
  {
    assert (g.parents - t) - u == g.parents - (t + u);
    assert (g.index - t) - u == g.index - (t + u);
    assert g.index - {} == g.index && g.parents - {} == g.parents;
  }

  ghost predicate InRange(store: map<Id, Layer>, n: Id) {
    forall id :: id in store ==> id < n && 0.0 <= store[id].props.opacity <= 1.0
  }

  lemma RangeKept(a: map<Id, Layer>, b: map<Id, Layer>, n: Id)
    requires SameButLists(a, b) && InRange(a, n)
    ensures InRange(b, n)
  {
    forall c | c in b ensures c < n && 0.0 <= b[c].props.opacity <= 1.0 {
      assert b[c].(children := a[c].children) == a[c];
    }
  }

  class LayerTree {
    var canvas: Size
    /** The layer objects that exist, attached or kept alive elsewhere. */
    var store: map<Id, Layer>
    var index: set<Id>
    var parents: map<Id, Id>
    var roots: seq<Id>
    var nextId: Id
    var active: Id
    ghost var rank: Id -> nat

    ghost function View(): Shape
      reads this
    {
      Shape(store, parents, roots)
    }

    ghost predicate Valid()
      reads this
    {
      && Coherent(View(), rank) && index == parents.Keys
      && nextId > 0 && InRange(store, nextId)
      && (active == NO_LAYER || active in index)
    }

    constructor (size: Size)
      ensures Valid() && canvas == size && index == {} && roots == [] && store == map[] && active == NO_LAYER
      ensures parents == map[] && nextId == 1
    {
      canvas, store, index, parents, roots, nextId, active := size, map[], {}, map[], [], 1, NO_LAYER;
      rank := (id: Id) => 0;
    }

    function ParentOf(id: Id): Id
      reads this
    {
      if id in parents then parents[id] else NO_LAYER
    }

    /** Walks up; it ends because the chain never meets itself. */
    method IsDescendant(candidate: Id, ancestor: Id) returns (b: bool)
      requires Valid()
      ensures b <==> Below(parents, candidate, ancestor)
    {
      hide Below, Listed, Coherent;
      var p := ParentOf(candidate);
      BelowStep(parents, candidate, ancestor);
      ghost var visited: set<Id> := {};
      if p != NO_LAYER { ParentAt(View(), rank, candidate); }
      while p != NO_LAYER
        invariant p == NO_LAYER || p in parents
        invariant Below(parents, candidate, ancestor) <==>
                  p != NO_LAYER && (p == ancestor || Below(parents, p, ancestor))
        invariant forall v :: v in visited ==> v in parents && (p == NO_LAYER || rank(v) < rank(p))
        decreases |parents.Keys - visited|, p
      {
        if p == ancestor { return true; }
        BelowStep(parents, p, ancestor);
        ParentAt(View(), rank, p);
        assert p !in visited;
        assert parents.Keys - (visited + {p}) == (parents.Keys - visited) - {p};
        visited := visited + {p};
        p := ParentOf(p);
      }
      b := false;
    }

    method SetList(p: Id, list: seq<Id>)
      requires p == NO_LAYER || p in store
      modifies this`store, this`roots
      ensures View() == SetKids(old(View()), p, list) && SameButLists(old(store), store)
    {
      if p == NO_LAYER {
        roots := list;
      } else {
        store := store[p := store[p].(children := list)];
      }
    }

    /** Takes a layer out of its siblings. */
    method Erase(p: Id, id: Id) returns (found: bool)
      requires p == NO_LAYER || p in store
      modifies this`store, this`roots
      ensures found <==> id in Kids(old(View()), p)
      ensures found ==>
              View() == SetKids(old(View()), p, DropFirst(Kids(old(View()), p), id)) && SameButLists(old(store), store)
      ensures !found ==> store == old(store) && roots == old(roots)
    {
      hide DropFirst;
      var list := if p == NO_LAYER then roots else store[p].children;
      var pos := 0;
      while pos < |list| && list[pos] != id
        invariant 0 <= pos <= |list| && id !in list[..pos]
      {
        pos := pos + 1;
      }
      if pos == |list| {
        assert list[..pos] == list;
        return false;
      }
      DropFirstAt(list, pos);
      SetList(p, list[..pos] + list[pos + 1..]);
      found := true;
    }

    ghost function Reg(): Registry
      reads this
    {
      Registry(index, parents, active)
    }

    method UnindexRecursive(x: Id, ghost s: Shape, ghost r: Id -> nat) returns (ghost t: set<Id>)
      requires Coherent(s, r) && x in s.parents
      requires forall y :: y in s.parents && r(y) <= r(x) ==> y in store && store[y].children == s.store[y].children
      modifies this`index, this`parents, this`active
      ensures IsSub(s, x, t) && forall y :: y in t ==> r(y) <= r(x)
      ensures Reg() == Drop(old(Reg()), t)
      decreases r(x)
    {
      hide Coherent, IsSub, Gathered, Drop;
      ParentAt(s, r, x);
      var kids := store[x].children;
      t := {};
      StartGathering(s, r, x);
      DropTwice(Reg(), {}, {});
      var i := 0;
      while i < |kids|
        invariant 0 <= i <= |kids| && Gathered(s, r, x, i, t)
        invariant Reg() == Drop(old(Reg()), t)
      {
        KidBelow(s, r, x, i);
        ghost var u := UnindexRecursive(kids[i], s, r);
        GatherOne(s, r, x, i, t, u);
        DropTwice(old(Reg()), t, u);
        t := t + u;
        i := i + 1;
      }
      UnindexOne(x);
      DropTwice(old(Reg()), t, {x});
      GatheredAll(s, r, x, t);
      t := t + {x};
    }

    method UnindexOne(x: Id)
      modifies this`index, this`parents, this`active
      ensures Reg() == Drop(old(Reg()), {x})
    {
      index := index - {x};
      parents := parents - {x};
      if active == x { active := NO_LAYER; }
    }

    /** Enters a layer and everything its lists name, whatever that is. `clean` says whether every entry
        was new; the original does not look. */
    method IndexRecursive(x: Id, p: Id) returns (clean: bool)
      requires Grounded(store, rank) && x in store
      modifies this`index, this`parents
      ensures index == old(index) + Named(store, x)
      ensures Enrolled(store, x, p, Named(store, x), old(parents), parents)
      ensures clean <==> Named(store, x) !! old(index) && Single(store, Named(store, x))
      decreases rank(x)
    {
      hide Named, Names, Enrolled, ListOk, Grounded, Single, NamedBy, Clean;
      clean := x !in index;
      index := index + {x};
      parents := parents[x := p];
      var kids := store[x].children;
      ghost var u: set<Id> := {};
      EnrolledTop(store, x, p, old(parents));
      CleanStart(store, x, old(index));
      var i := 0;
      while i < |kids|
        invariant 0 <= i <= |kids| && u == NamedBy(store, kids, i) && index == old(index) + {x} + u
        invariant Enrolled(store, x, p, {x} + u, old(parents), parents)
        invariant clean <==> Clean(store, x, old(index), i)
      {
        NamedKid(store, rank, x, i);
        ghost var mid := parents;
        var below := IndexRecursive(kids[i], x);
        clean := clean && below;
        CleanNext(store, x, old(index), i);
        EnrolledMore(store, x, p, u, kids[i], Named(store, kids[i]), old(parents), mid, parents);
        NamedByNext(store, kids, i);
        u := u + Named(store, kids[i]);
        assert {x} + u == ({x} + NamedBy(store, kids, i)) + Named(store, kids[i]);
        i := i + 1;
      }
      NamedSplit(store, x);
      assert index == old(index) + Named(store, x);
      CleanAll(store, rank, x, old(index));
    }

    /** The part of an insertion after the checks, whatever state the lists are in, as long as they lead
        nowhere in circles. */
    method Attach(x: Id, parent: Id, at: int) returns (clean: bool)
      requires Grounded(store, rank) && x in store && x !in index && CanHold(View(), parent)
      requires index == parents.Keys && forall c :: c in parents ==> c in store
      modifies this`store, this`roots, this`index, this`parents, this`active
      ensures index == parents.Keys && SameButLists(old(store), store)
      ensures Hung(old(View()), x, parent, ClampIndex(at, |Kids(old(View()), parent)|), View())
      ensures active == if old(active) == NO_LAYER && store[x].kind == Raster then x else old(active)
      ensures clean <==> Named(old(store), x) !! old(index) && Single(old(store), Named(old(store), x))
    {
      hide InsertAt, Named, Enrolled, ListOk, Grounded, Single;
      clean := IndexRecursive(x, parent);
      IndexedKeys(store, x, parent, old(parents), parents);
      var list := if parent == NO_LAYER then roots else store[parent].children;
      SetList(parent, InsertAt(list, ClampIndex(at, |list|), x));
      if active == NO_LAYER && store[x].kind == Raster { active := x; }
    }

    /** In order before; in order afterwards exactly when what the layer names is a tree of its own. */
    method Hang(x: Id, parent: Id, at: int) returns (clean: bool)
      requires Valid() && x in store && x !in index && CanHold(View(), parent)
      modifies this
      ensures nextId == old(nextId) && canvas == old(canvas) && index == parents.Keys && SameButLists(old(store), store)
      ensures Hung(old(View()), x, parent, ClampIndex(at, |Kids(old(View()), parent)|), View())
      ensures active == if old(active) == NO_LAYER && store[x].kind == Raster then x else old(active)
      ensures if Whole(old(View()), x) then Valid() else exists y :: Doubled(View(), y)
      ensures clean <==> Whole(old(View()), x)
    {
      hide Coherent, InsertAt, Lifted, SameButLists, InRange, Named, Whole, Doubled, ListOk, Grounded, Hung, Single;
      ghost var s := View();
      AllStored(s, rank);
      GroundAt(s, rank, x);
      clean := Attach(x, parent, at);
      InsertDone(s, rank, x, parent, ClampIndex(at, |Kids(s, parent)|), View(), nextId);
      rank := Lifted(rank, Named(s.store, x), rank(x) + 1);
    }

    /** Puts a detached layer, with whatever it names, below `parent`. The tree stays in order exactly
        when what it names is a tree of its own. */
    method Insert(x: Id, parent: Id, at: int) returns (r: Result<Id>, clean: bool)
      requires Valid() && x in store && x !in index
      modifies this
      ensures nextId == old(nextId) && canvas == old(canvas)
      ensures r.Ok? <==> CanHold(old(View()), parent)
      ensures r.Ok? ==>
              r.value == x && Hung(old(View()), x, parent, ClampIndex(at, |Kids(old(View()), parent)|), View())
      ensures r.Ok? ==> SameButLists(old(store), store) && index == parents.Keys
      ensures r.Ok? ==> active == if old(active) == NO_LAYER && store[x].kind == Raster then x else old(active)
      ensures r.Ok? ==> if Whole(old(View()), x) then Valid() else exists y :: Doubled(View(), y)
      ensures r.Ok? ==> (clean <==> Whole(old(View()), x))
      ensures r.Err? ==> Valid() && View() == old(View()) && Reg() == old(Reg()) && rank == old(rank)
    {
      hide Coherent, SameButLists, InRange, Whole, Doubled, Hung;
      AllStored(View(), rank);
      if parent != NO_LAYER {
        if parent !in index { return Err(NotFound), false; }
        ParentAt(View(), rank, parent);
        if store[parent].kind != Group { return Err(InvalidArgument), false; }
      }
      clean := Hang(x, parent, at);
      r := Ok(x);
    }

    /** `addRaster` and `addGroup`. The id is spent even when the parent is refused; it is never used
        again. */
    method Add(kind: Kind, name: string, parent: Id, at: int) returns (r: Result<Id>)
      requires Valid()
      modifies this
      ensures Valid() && nextId == old(nextId) + 1 && canvas == old(canvas)
      ensures store.Keys == old(store).Keys + {old(nextId)} && old(nextId) !in old(store)
      ensures r.Ok? <==> CanHold(old(View()), parent)
      ensures r.Ok? ==>
                && r.value == old(nextId) && index == old(index) + {r.value}
                && View() == Added(old(View()), r.value, NewLayer(kind, name), parent, at)
      ensures r.Err? ==>
              Reg() == old(Reg()) && roots == old(roots) && store == old(store)[old(nextId) := NewLayer(kind, name)]
    {
      hide LocalTree, Coherent, Added, Hung, Whole, Named, Doubled, InRange, SameButLists, NewLayer;
      var x := nextId;
      nextId := nextId + 1;
      FreshId(View(), rank, x, kind, name);
      store := store[x := NewLayer(kind, name)];
      ghost var before := rank;
      AllStored(View(), rank);
      var clean;
      r, clean := Insert(x, parent, at);
      if r.Ok? { AddDone(old(View()), before, x, kind, name, parent, at, View()); }
    }

    /** `reattachLayer`: a removed layer comes back under its own id, with whatever its own child lists
        still say. The tree stays in order exactly when that is a tree of its own: nothing in it attached
        already, and nothing named twice. Otherwise a layer ends up on two lists. */
    method Reattach(x: Id, parent: Id, at: int) returns (r: Result<()>, clean: bool)
      requires Valid() && x in store
      modifies this
      ensures nextId == old(nextId) && canvas == old(canvas)
      ensures r.Ok? <==> x !in old(index) && CanHold(old(View()), parent)
      ensures r.Err? ==> Valid() && View() == old(View()) && Reg() == old(Reg())
      ensures r.Ok? ==> Hung(old(View()), x, parent, ClampIndex(at, |Kids(old(View()), parent)|), View())
      ensures r.Ok? ==> SameButLists(old(store), store) && index == parents.Keys
      ensures r.Ok? ==> active == if old(active) == NO_LAYER && store[x].kind == Raster then x else old(active)
      ensures r.Ok? ==> if Whole(old(View()), x) then Valid() else exists y :: Doubled(View(), y)
      ensures r.Ok? ==> (clean <==> Whole(old(View()), x))
      ensures r.Ok? && !Whole(old(View()), x) ==> forall rk :: !Coherent(View(), rk)
    {
      hide Coherent, Whole, Hung, SameButLists, InRange, Doubled;
      if x in index { return Err(InvalidArgument), false; }
      ghost var s := View();
      var inserted;
      inserted, clean := Insert(x, parent, at);
      if inserted.Err? { return Err(inserted.error), false; }
      if !Whole(s, x) {
        ghost var y :| Doubled(View(), y);
        forall rk ensures !Coherent(View(), rk) { DoubledBreaks(View(), rk, y); }
      }
      r := Ok(());
    }

    /** Removes a layer and everything below it. A layer that is in the index is in its parent's list,
        so the search there always succeeds. */
    method Remove(id: Id) returns (r: Result<()>)
      requires Valid()
      modifies this
      ensures Valid() && nextId == old(nextId) && canvas == old(canvas)
      ensures r.Ok? <==> id in old(index)
      ensures r.Ok? ==> Removed(old(View()), id, View()) && Reg() == Drop(old(Reg()), Sub(old(View()), id))
      ensures r.Ok? ==> Named(store, id) == Sub(old(View()), id) && Whole(View(), id)
      ensures r.Err? ==> View() == old(View()) && Reg() == old(Reg())
    {
      hide Coherent, Cut, Without, Drop, Sub, IsSub, Removed, Distinct, SameButLists, InRange, Named, LocalTree, Whole,
           DropFirst;
      ghost var s := View();
      assert NO_LAYER !in index by { RootIsNoLayer(s, rank); }
      if id == NO_LAYER { return Err(InvalidArgument); }
      if id !in index { return Err(NotFound); }
      SubIsSub(s, rank, id);
      InOwnList(s, rank, id);
      var found := Erase(ParentOf(id), id);
      assert found;
      FirstIsAll(Kids(s, s.parents[id]), id);
      CutShape(s, rank, id);
      ghost var t := UnindexRecursive(id, s, rank);
      SameSub(s, rank, id, t, Sub(s, id));
      RemoveKeeps(s, rank, id);
      RangeKept(old(store), store, nextId);
      DropIs(old(Reg()), t);
      r := Ok(());
    }

    /** The checks at the start of `move`. */
    method CheckMove(id: Id, newParent: Id) returns (r: Result<()>)
      requires Valid()
      ensures r.Ok? <==> CanMove(View(), id, newParent)
    {
      hide Coherent, Below;
      assert NO_LAYER !in index by { RootIsNoLayer(View(), rank); }
      if id == NO_LAYER { return Err(InvalidArgument); }
      if id !in index { return Err(NotFound); }
      if id == newParent { return Err(InvalidArgument); }
      if newParent != NO_LAYER {
        if newParent !in index { return Err(NotFound); }
        ParentAt(View(), rank, newParent);
        if store[newParent].kind != Group { return Err(InvalidArgument); }
        var circle := IsDescendant(newParent, id);
        if circle { return Err(InvalidArgument); }
      }
      r := Ok(());
    }

    /** The part of a move after the checks, whatever state the lists are in: the first entry for the layer
        goes from its parent's list, and one comes into that of the new parent. */
    method Relocate(id: Id, newParent: Id, at: int)
      requires id in parents && (newParent == NO_LAYER || newParent in store)
      requires (parents[id] == NO_LAYER || parents[id] in store) && id in Kids(View(), parents[id])
      modifies this`store, this`roots, this`parents
      ensures View() == Relocated(old(View()), id, newParent, at) && SameButLists(old(store), store)
    {
      hide DropFirst, InsertAt;
      var found := Erase(ParentOf(id), id);
      assert found;
      parents := parents[id := newParent];
      var list := if newParent == NO_LAYER then roots else store[newParent].children;
      SetList(newParent, InsertAt(list, ClampIndex(at, |list|), id));
    }

    /** Moves a layer with everything below it. Every refusal leaves the tree as it was. */
    method Move(id: Id, newParent: Id, at: int) returns (r: Result<()>)
      requires Valid()
      modifies this
      ensures Valid() && nextId == old(nextId) && canvas == old(canvas)
      ensures r.Ok? <==> CanMove(old(View()), id, newParent)
      ensures r.Ok? ==> MovedTo(old(View()), id, newParent, at, View()) && index == old(index) && active == old(active)
      ensures r.Err? ==> View() == old(View()) && Reg() == old(Reg())
    {
      hide Coherent, Without, Sub, IsSub, Below, Lifted, InsertAt, Cut, MovedTo, MoveRank, Distinct, SameButLists,
           InRange, CanMove, DropFirst;
      ghost var s := View();
      r := CheckMove(id, newParent);
      if r.Err? { return; }
      Movable(s, rank, id, newParent);
      InOwnList(s, rank, id);
      AllStored(s, rank);
      Relocate(id, newParent, at);
      FirstIsAll(Kids(s, s.parents[id]), id);
      MoveKeeps(s, rank, id, newParent, at);
      rank := MoveRank(s, rank, id, newParent);
      MovedIs(s, rank, id, newParent, at, View());
      RangeKept(old(store), store, nextId);
      r := Ok(());
    }

    method SetActive(id: Id) returns (r: Result<()>)
      requires Valid()
      modifies this`active
      ensures Valid()
      ensures r.Ok? <==> id == NO_LAYER || id in index
      ensures active == if r.Ok? then id else old(active)
    {
      if id == NO_LAYER {
        active := NO_LAYER;
        return Ok(());
      }
      if id !in index { return Err(NotFound); }
      active := id;
      r := Ok(());
    }

    /** Copies a layer and everything below it into new objects with new ids; the copy is not attached. */
    method Clone(src: Id, name: string, ghost s: Shape, ghost r: Id -> nat)
            returns (x: Id, ghost o: map<Id, Id>, ghost pm: map<Id, Id>)
      requires Coherent(s, r) && src in s.parents
      requires Extends(s.store, store) && nextId > 0 && Under(store, nextId)
      modifies this`store, this`nextId
      ensures Extends(old(store), store) && nextId > old(nextId) && Under(store, nextId)
      ensures x == old(nextId) && x in o && o[x] == src && o.Keys == store.Keys - old(store).Keys
      ensures Copied(store, s, o, pm, x, name)
      decreases r(src)
    {
      hide Coherent, Copied, CopiedKids, Extends, Under;
      x := nextId;
      nextId := nextId + 1;
      ParentAt(s, r, src);
      ExtendsAt(s.store, store, src);
      var layer := store[src];
      store := store[x := Layer(layer.kind, layer.props.(name := name), layer.tiles, layer.mask, [])];
      var list: seq<Id> := [];
      o, pm := map[], map[];
      NoKidsYet(store, s, x, src);
      ghost var first := store;
      Grown(s.store, old(store), x, store[x]);
      assert Under(store, nextId);
      ExtendsOnce(store);
      var i := 0;
      while i < |layer.children|
        invariant 0 <= i <= |layer.children| && CopiedKids(store, s, o, pm, x, src, list, i)
        invariant Extends(first, store) && nextId > x && Under(store, nextId)
        invariant o.Keys == store.Keys - first.Keys
      {
        KidBelow(s, r, src, i);
        ParentAt(s, r, layer.children[i]);
        ExtendsBoth(s.store, first, store);
        ExtendsAt(s.store, store, layer.children[i]);
        ghost var was := store;
        var c;
        ghost var oc, pc;
        c, oc, pc := Clone(layer.children[i], store[layer.children[i]].props.name, s, r);
        AddKid(was, store, s, o, pm, x, src, list, i, oc, pc, c);
        NewKeys(first, was, store, o, oc);
        list := list + [c];
        o, pm := o + oc, pm + pc[c := x];
        i := i + 1;
      }
      ExtendsAt(first, store, x);
      CopyDone(store, s, r, o, pm, x, src, list, name);
      ghost var done := store;
      store := store[x := store[x].(children := list)];
      CloneKeys(old(store), first, done, o, x, src, store[x], nextId);
      o := o[x := src];
    }

    method IndexOf(id: Id) returns (i: int)
      requires Valid() && id in index
      ensures 0 <= i < |Kids(View(), parents[id])| && Kids(View(), parents[id])[i] == id
    {
      hide Coherent, Distinct;
      InOwnList(View(), rank, id);
      var list := if ParentOf(id) == NO_LAYER then roots else store[ParentOf(id)].children;
      i := 0;
      while list[i] != id
        invariant 0 <= i < |list| && id !in list[..i]
        decreases |list| - i
      {
        i := i + 1;
        assert id in list[i..] by { assert list[..i] + list[i..] == list; }
      }
    }

    /** Duplicates a layer with everything below it, right above the original. */
    method Duplicate(id: Id, newName: string) returns (r: Result<Id>, ghost o: map<Id, Id>, ghost pm: map<Id, Id>)
      requires Valid()
      modifies this
      ensures Valid() && canvas == old(canvas)
      ensures r.Ok? <==> id in old(index)
      ensures r.Err? ==> View() == old(View()) && Reg() == old(Reg()) && nextId == old(nextId)
      ensures r.Ok? ==> r.value == old(nextId) && r.value in o && o[r.value] == id && o.Keys !! old(store).Keys
      ensures r.Ok? ==>
              Copied(store, old(View()), o, pm, r.value, if newName == ""
                then old(View()).store[id].props.name + COPY_SUFFIX else newName)
      ensures r.Ok? ==> DuplicatedAt(old(View()), id, r.value, pm, View())
    {
      hide Coherent, Copied, LocalTree, DuplicatedAt, InsertAt, Inserted, SameButLists, InRange, Extends, Hung, Whole,
           Doubled, Named, CopyRank, ParentOk;
      o, pm := map[], map[];
      if id !in index { return Err(NotFound), o, pm; }
      ghost var s, before := View(), store;
      ParentHolds(s, rank, id);
      var name := if newName == "" then store[id].props.name + COPY_SUFFIX else newName;
      var x;
      WithinRange(store, nextId);
      x, o, pm := Clone(id, name, s, rank);
      CopyReady(s, rank, store, o, pm, x, name, old(nextId), nextId);
      rank := CopyRank(rank, o);
      ghost var mid, midRank := View(), rank;
      ParentHolds(mid, rank, id);
      TopInStore(store, rank, o.Keys, x, pm);
      var at := IndexOf(id);
      var clean;
      r, clean := Insert(x, ParentOf(id), at + 1);
      HungWhole(mid, midRank, o.Keys, x, pm, s.parents[id], at + 1, View());
      DuplicateIs(s, old(rank), mid, o, pm, x, id, at, name, View());
    }

    /** The property setters of a layer; opacity is clamped. */
    method SetProps(id: Id, props: Props)
      requires Valid() && id in store
      modifies this`store
      ensures Valid()
      ensures store == old(store)[id := old(store)[id].(props := props.(opacity := Blend.Clamp01(props.opacity)))]
    {
      hide Coherent;
      Redressed(View(), rank, id, store[id].(props := props.(opacity := Blend.Clamp01(props.opacity))));
      store := store[id := store[id].(props := props.(opacity := Blend.Clamp01(props.opacity)))];
    }

    /** `setLayerTiles`: a group has no pixels to replace. */
    method SetTiles(id: Id, tiles: Pixels) returns (r: Result<()>)
      requires Valid() && id in store
      modifies this`store
      ensures Valid() && (r.Ok? <==> old(store)[id].kind == Raster)
      ensures store == if r.Ok? then old(store)[id := old(store)[id].(tiles := tiles)] else old(store)
    {
      hide Coherent;
      if store[id].kind != Raster { return Err(InvalidArgument); }
      Redressed(View(), rank, id, store[id].(tiles := tiles));
      store := store[id := store[id].(tiles := tiles)];
      r := Ok(());
    }
  }

  /** Properties and pixels are no matter of the forest. */
  lemma Redressed(s: Shape, rank: Id -> nat, id: Id, layer: Layer)
    requires Coherent(s, rank) && id in s.store && layer.kind == s.store[id].kind
             && layer.children == s.store[id].children
    ensures Coherent(s.(store := s.store[id := layer]), rank)
  {
    hide Distinct;
    var s' := s.(store := s.store[id := layer]);
    forall c | c in s'.parents ensures ParentOk(s', rank, c) { assert ParentOk(s, rank, c); }
    forall p | Owner(s', p) ensures Listed(s', p) {
      assert Listed(s, p);
      assert Kids(s', p) == Kids(s, p);
    }
    forall y | y in s'.store ensures ListOk(s'.store, rank, y) { GroundAt(s, rank, y); }
  }

  /** What the original appends to the name of a copy. */
  const COPY_SUFFIX := " \U{BCF5}\U{C0AC}"

  lemma ParentHolds(s: Shape, rank: Id -> nat, id: Id)
    requires Coherent(s, rank) && id in s.parents
    ensures id in s.store && CanHold(s, s.parents[id]) && forall c :: c in s.parents ==> c in s.store
  {
    hide Coherent;
    AllStored(s, rank);
    ParentAt(s, rank, id);
  }

  lemma WithinRange(store: map<Id, Layer>, n: Id)
    requires InRange(store, n)
    ensures Extends(store, store) && Under(store, n)
  {
  }

  /** A finished copy is a detached subtree beside a coherent forest. */
  lemma CopyReady(s: Shape, rank: Id -> nat, store: map<Id, Layer>, o: map<Id, Id>, pm: map<Id, Id>, x: Id,
          name: string, n: Id, n': Id)
    requires Coherent(s, rank) && Extends(s.store, store) && Copied(store, s, o, pm, x, name)
             && o.Keys == store.Keys - s.store.Keys
    requires InRange(s.store, n) && n <= n' && Under(store, n')
    ensures Coherent(s.(store := store), CopyRank(rank, o)) && InRange(store, n')
    ensures LocalTree(store, CopyRank(rank, o), o.Keys, x, pm) && o.Keys !! s.parents.Keys
  {
    hide Coherent, KeepsParent, Distinct, CopyOf, LocalTree, ListOk, InRange, Copied;
    CopyIsLocal(s, rank, store, o, pm, x, name);
    CopyIsSound(s, rank, store, o, pm, x, name);
    AllStored(s, rank);
    forall c | c in store && c !in s.store ensures ListOk(store, CopyRank(rank, o), c) {
      CopyGround(store, CopyRank(rank, o), o.Keys, x, pm, c);
    }
    CopyRange(s, store, o, pm, x, name, n, n');
    MoreStore(s, rank, store, CopyRank(rank, o));
  }

  /** A copy has the opacity of its original. */
  lemma CopyRange(s: Shape, store: map<Id, Layer>, o: map<Id, Id>, pm: map<Id, Id>, x: Id, name: string, n: Id, n': Id)
    requires Extends(s.store, store) && Copied(store, s, o, pm, x, name) && o.Keys == store.Keys - s.store.Keys
    requires InRange(s.store, n) && n <= n' && Under(store, n')
    ensures InRange(store, n')
  {
    hide CopyOf, KeepsParent;
    forall c | c in store ensures c < n' && 0.0 <= store[c].props.opacity <= 1.0 {
      if c in o { CopyProps(store, s, o, pm, c, if c == x then name else NameOf(s, o[c])); }
    }
  }

  lemma CopyProps(store: map<Id, Layer>, s: Shape, o: map<Id, Id>, pm: map<Id, Id>, k: Id, name: string)
    requires k in o && CopyOf(store, s, o, pm, k, name)
    ensures k in store && o[k] in s.store && store[k].props.opacity == s.store[o[k]].props.opacity
  {
    assert store[k].(children := []).props.opacity == store[k].props.opacity;
  }

  lemma CopyGround(store: map<Id, Layer>, rank: Id -> nat, t: set<Id>, x: Id, pm: map<Id, Id>, c: Id)
    requires LocalTree(store, rank, t, x, pm) && c in t
    ensures c in store && ListOk(store, rank, c)
  {
    hide Distinct;
    assert LocalList(store, c, pm);
  }

  lemma CopyIsSound(s: Shape, rank: Id -> nat, store: map<Id, Layer>, o: map<Id, Id>, pm: map<Id, Id>, x: Id,
          name: string)
    requires Coherent(s, rank) && Extends(s.store, store) && Copied(store, s, o, pm, x, name)
             && o.Keys == store.Keys - s.store.Keys
    ensures NO_LAYER !in store && forall id :: id in store && store[id].kind == Raster ==> store[id].children == []
  {
    hide KeepsParent, Listed, ParentOk, CopyOf;
    forall c | c in store ensures c != NO_LAYER && (store[c].kind == Raster ==> store[c].children == []) {
      if c in o {
        assert CopyOf(store, s, o, pm, c, if c == x then name else NameOf(s, o[c]));
        CopyBasics(store, s, o, pm, c, if c == x then name else NameOf(s, o[c]));
      }
    }
  }

  lemma CopyBasics(store: map<Id, Layer>, s: Shape, o: map<Id, Id>, pm: map<Id, Id>, k: Id, name: string)
    requires k in o && CopyOf(store, s, o, pm, k, name)
    ensures k in store && k != NO_LAYER && o[k] in s.parents && o[k] in s.store && store[k].kind == s.store[o[k]].kind
    ensures |store[k].children| == |s.store[o[k]].children| && LocalList(store, k, pm)
  {
    assert store[k].(children := []).kind == store[k].kind;
  }

  lemma CopyIsLocal(s: Shape, rank: Id -> nat, store: map<Id, Layer>, o: map<Id, Id>, pm: map<Id, Id>, x: Id,
          name: string)
    requires Coherent(s, rank) && Copied(store, s, o, pm, x, name)
    ensures LocalTree(store, CopyRank(rank, o), o.Keys, x, pm)
  {
    hide Coherent, LocalList, CopyOf;
    forall y | y in o ensures y in store && y != NO_LAYER && LocalList(store, y, pm) {
      CopyBasics(store, s, o, pm, y, if y == x then name else NameOf(s, o[y]));
    }
    forall c | c in pm ensures pm[c] in o && store[pm[c]].kind == Group && rank(o[c]) < rank(o[pm[c]]) {
      assert KeepsParent(s, o, pm, c);
      var k := pm[c];
      CopyBasics(store, s, o, pm, k, if k == x then name else NameOf(s, o[k]));
      ParentAt(s, rank, o[k]);
      ParentAt(s, rank, o[c]);
    }
  }

  lemma DuplicateIs(s: Shape, rank: Id -> nat, mid: Shape, o: map<Id, Id>, pm: map<Id, Id>, x: Id, id: Id, at: nat,
          name: string, s': Shape)
    requires Coherent(s, rank) && id in s.parents && mid == s.(store := mid.store) && Extends(s.store, mid.store)
    requires o.Keys == mid.store.Keys - s.store.Keys && Copied(mid.store, s, o, pm, x, name)
    requires at < |Kids(mid, s.parents[id])| && Kids(mid, s.parents[id])[at] == id
    requires Owner(mid, s.parents[id]) && (forall c :: c in mid.parents ==> c in mid.store)
    requires s' == Inserted(mid, x, pm, s.parents[id], at + 1)
    ensures DuplicatedAt(s, id, x, pm, s') && Copied(s'.store, s, o, pm, x, name)
  {
    hide Coherent, Copied, InsertAt, CopyOf, KeepsParent, Distinct;
    ParentAt(s, rank, id);
    var p := s.parents[id];
    AllStored(s, rank);
    assert Kids(mid, p) == Kids(s, p);
    assert Kids(s', p) == InsertAt(Kids(s, p), at + 1, x);
    CopyKept(mid.store, s'.store, s, o, pm, x, name);
  }

  lemma CopyKept(was: map<Id, Layer>, store: map<Id, Layer>, s: Shape, o: map<Id, Id>, pm: map<Id, Id>, x: Id,
          name: string)
    requires Copied(was, s, o, pm, x, name) && was.Keys == store.Keys && forall k :: k in o ==>
             k in was && store[k] == was[k]
    ensures Copied(store, s, o, pm, x, name)
  {
    hide CopyOf, KeepsParent;
    forall k | k in o ensures CopyOf(store, s, o, pm, k, if k == x then name else NameOf(s, o[k])) {
      CopyStays(was, store, s, o, pm, o, pm, k, if k == x then name else NameOf(s, o[k]));
    }
  }

  /** `s'` is `s` with the copy `x` right above `id`; nothing else moved. */
  ghost predicate DuplicatedAt(s: Shape, id: Id, x: Id, pm: map<Id, Id>, s': Shape)
    requires id in s.parents
  {
    var p := s.parents[id];
    && s'.parents == s.parents + pm[x := p]
    && (exists at: nat :: at < |Kids(s, p)| && Kids(s, p)[at] == id && Kids(s', p) == InsertAt(Kids(s, p), at + 1, x))
    && (forall q :: Owner(s, q) && q != p ==> Kids(s', q) == Kids(s, q))
    && (forall c :: c in s.store ==> c in s'.store && s'.store[c].(children := s.store[c].children) == s.store[c])
  }

  ghost function CopyRank(rank: Id -> nat, o: map<Id, Id>): Id -> nat {
    (k: Id) => if k in o then rank(o[k]) else rank(k)
  }


  // ---- copying a subtree ------------------------------------------------------------------------------

  ghost predicate Extends(a: map<Id, Layer>, b: map<Id, Layer>) {
    a.Keys <= b.Keys && forall id :: id in a ==> b[id] == a[id]
  }

  lemma ExtendsAt(a: map<Id, Layer>, b: map<Id, Layer>, x: Id)
    requires Extends(a, b) && x in a
    ensures x in b && b[x] == a[x]
  {
  }

  lemma ExtendsOnce(a: map<Id, Layer>)
    ensures Extends(a, a)
  {
  }

  lemma ExtendsBoth(a: map<Id, Layer>, b: map<Id, Layer>, c: map<Id, Layer>)
    requires Extends(a, b) && Extends(b, c)
    ensures Extends(a, c)
  {
  }

  /** All ids are below the next one to be given out. */
  ghost predicate Under(store: map<Id, Layer>, n: Id) {
    forall id :: id in store ==> id < n
  }

  lemma Grown(a: map<Id, Layer>, b: map<Id, Layer>, x: Id, layer: Layer)
    requires Extends(a, b) && Under(b, x)
    ensures x !in b && Extends(a, b[x := layer]) && Under(b[x := layer], x + 1)
  {
  }

  lemma NewKeys(first: map<Id, Layer>, was: map<Id, Layer>, store: map<Id, Layer>, o: map<Id, Id>, oc: map<Id, Id>)
    requires Extends(first, was) && Extends(was, store)
    requires o.Keys == was.Keys - first.Keys && oc.Keys == store.Keys - was.Keys
    ensures Extends(first, store) && (o + oc).Keys == store.Keys - first.Keys
  {
  }

  /** A finished copy occupies new ids only. */
  lemma CloneKeys(before: map<Id, Layer>, first: map<Id, Layer>, done: map<Id, Layer>, o: map<Id, Id>, x: Id, src: Id,
          layer: Layer, n: Id)
    requires x !in before && x in first && first == before[x := first[x]] && Extends(first, done)
    requires o.Keys == done.Keys - first.Keys && Under(done, n)
    ensures Extends(before, done[x := layer]) && o[x := src].Keys == done[x := layer].Keys - before.Keys
            && Under(done[x := layer], n)
  {
    assert first.Keys == before.Keys + {x};
    forall k ensures k in o[x := src] <==> k in done[x := layer] && k !in before {}
  }

  /** Object `k` is a copy of layer `o[k]`, called `name`, and its children are copies of that layer's. */
  ghost predicate CopyOf(store: map<Id, Layer>, s: Shape, o: map<Id, Id>, pm: map<Id, Id>, k: Id, name: string)
    requires k in o
  {
    && k in store && k != NO_LAYER && o[k] in s.parents && o[k] in s.store
    && store[k].(children := []) == s.store[o[k]].(children := [], props := s.store[o[k]].props.(name := name))
    && LocalList(store, k, pm)
    && |store[k].children| == |s.store[o[k]].children|
    && forall i :: 0 <= i < |store[k].children| ==>
       store[k].children[i] in o && o[store[k].children[i]] == s.store[o[k]].children[i]
  }

  function NameOf(s: Shape, id: Id): string {
    if id in s.store then s.store[id].props.name else ""
  }

  ghost predicate KeepsParent(s: Shape, o: map<Id, Id>, pm: map<Id, Id>, k: Id)
    requires k in pm && k in o
  {
    pm[k] in o && o[k] in s.parents && o[pm[k]] == s.parents[o[k]]
  }

  /** The objects `o.Keys` are a copy of the subtree below `o[x]`: `x` is its top, `pm` its parents. */
  ghost predicate Copied(store: map<Id, Layer>, s: Shape, o: map<Id, Id>, pm: map<Id, Id>, x: Id, name: string) {
    && x in o && pm.Keys == o.Keys - {x} && o.Keys <= store.Keys && (forall k :: k in pm ==> pm[k] in o)
    && (forall k :: k in o ==> CopyOf(store, s, o, pm, k, if k == x then name else NameOf(s, o[k])))
    && (forall k :: k in pm ==> KeepsParent(s, o, pm, k))
  }

  /** The first `i` children of `src` are copied, below `x`, whose own list is still to be set. */
  ghost predicate CopiedKids(store: map<Id, Layer>, s: Shape, o: map<Id, Id>, pm: map<Id, Id>, x: Id, src: Id,
          list: seq<Id>, i: nat) {
    && src in s.store && i <= |s.store[src].children| && x in store && x !in o && x != NO_LAYER && pm.Keys == o.Keys
    && o.Keys <= store.Keys && (forall k :: k in pm ==> pm[k] == x || pm[k] in o)
    && |list| == i && Distinct(list)
       && (forall j :: 0 <= j < i ==> list[j] in o && o[list[j]] == s.store[src].children[j])
    && (forall k :: k in o ==> CopyOf(store, s, o, pm, k, NameOf(s, o[k])))
    && (forall k :: k in pm ==> if k in list then pm[k] == x else KeepsParent(s, o, pm, k))
  }

  lemma NoKidsYet(store: map<Id, Layer>, s: Shape, x: Id, src: Id)
    requires src in s.store && x in store && x != NO_LAYER
    ensures CopiedKids(store, s, map[], map[], x, src, [], 0)
  {
  }

  lemma AddKid(was: map<Id, Layer>, store: map<Id, Layer>, s: Shape, o: map<Id, Id>, pm: map<Id, Id>, x: Id, src: Id,
          list: seq<Id>, i: nat,
               oc: map<Id, Id>, pc: map<Id, Id>, c: Id)
    requires CopiedKids(was, s, o, pm, x, src, list, i) && src in s.store && i < |s.store[src].children|
    requires Extends(was, store) && oc.Keys == store.Keys - was.Keys
    requires c in oc && oc[c] == s.store[src].children[i] && Copied(store, s, oc, pc, c, NameOf(s, oc[c]))
    ensures CopiedKids(store, s, o + oc, pm + pc[c := x], x, src, list + [c], i + 1)
  {
    hide CopyOf, KeepsParent, Distinct, Copied, CopiedKids, Extends;
    KidDisjoint(was, store, s, o, pm, x, src, list, i, oc, pc, c);
    KidListed(was, store, s, o, pm, x, src, list, i, oc, pc, c);
    var o', pm' := o + oc, pm + pc[c := x];
    forall k | k in o' ensures CopyOf(store, s, o', pm', k, NameOf(s, o'[k])) {
      AddKidCopy(was, store, s, o, pm, x, src, list, i, oc, pc, c, k);
    }
    forall k | k in pm' ensures if k in list + [c] then pm'[k] == x else KeepsParent(s, o', pm', k) {
      AddKidParent(was, store, s, o, pm, x, src, list, i, oc, pc, c, k);
    }
    assert pm'.Keys == o'.Keys;
    KidsAre(store, s, o', pm', x, src, list + [c], i + 1);
  }

  lemma KidListed(was: map<Id, Layer>, store: map<Id, Layer>, s: Shape, o: map<Id, Id>, pm: map<Id, Id>, x: Id, src: Id,
          list: seq<Id>, i: nat,
               oc: map<Id, Id>, pc: map<Id, Id>, c: Id)
    requires CopiedKids(was, s, o, pm, x, src, list, i) && src in s.store && i < |s.store[src].children|
    requires Extends(was, store) && oc.Keys == store.Keys - was.Keys
    requires c in oc && oc[c] == s.store[src].children[i] && Copied(store, s, oc, pc, c, NameOf(s, oc[c]))
    ensures |list| == i && Distinct(list + [c]) && x in store && x != NO_LAYER && x !in o
    ensures forall j :: 0 <= j <= i ==>
            (list + [c])[j] in o + oc && (o + oc)[(list + [c])[j]] == s.store[src].children[j]
  {
    hide CopyOf, KeepsParent, Distinct, Copied;
    KidDisjoint(was, store, s, o, pm, x, src, list, i, oc, pc, c);
    DistinctMore(list, c);
  }

  lemma KidsAre(store: map<Id, Layer>, s: Shape, o: map<Id, Id>, pm: map<Id, Id>, x: Id, src: Id, list: seq<Id>, i: nat)
    requires src in s.store && i <= |s.store[src].children| && x in store && x !in o && x != NO_LAYER
             && pm.Keys == o.Keys
    requires o.Keys <= store.Keys && (forall k :: k in pm ==> pm[k] == x || pm[k] in o)
    requires |list| == i && Distinct(list)
             && (forall j :: 0 <= j < i ==> list[j] in o && o[list[j]] == s.store[src].children[j])
    requires forall k :: k in o ==> CopyOf(store, s, o, pm, k, NameOf(s, o[k]))
    requires forall k :: k in pm ==> if k in list then pm[k] == x else KeepsParent(s, o, pm, k)
    ensures CopiedKids(store, s, o, pm, x, src, list, i)
  {
    hide CopyOf, KeepsParent, Distinct;
  }

  /** The new objects are none of those there were. */
  lemma KidDisjoint(was: map<Id, Layer>, store: map<Id, Layer>, s: Shape, o: map<Id, Id>, pm: map<Id, Id>, x: Id,
          src: Id, list: seq<Id>, i: nat,
               oc: map<Id, Id>, pc: map<Id, Id>, c: Id)
    requires CopiedKids(was, s, o, pm, x, src, list, i) && src in s.store && i < |s.store[src].children|
    requires Extends(was, store) && oc.Keys == store.Keys - was.Keys
    requires c in oc && oc[c] == s.store[src].children[i] && Copied(store, s, oc, pc, c, NameOf(s, oc[c]))
    ensures o.Keys !! oc.Keys && x !in oc && c !in list && c !in pc && c !in pm && pm.Keys == o.Keys
            && pc.Keys == oc.Keys - {c}
    ensures (forall k :: k in pc ==> pc[k] in oc) && (forall k :: k in pm ==> pm[k] == x || pm[k] in o)
            && oc.Keys <= store.Keys && o.Keys <= store.Keys
  {
    hide CopyOf, KeepsParent, Distinct;
  }

  lemma AddKidCopy(was: map<Id, Layer>, store: map<Id, Layer>, s: Shape, o: map<Id, Id>, pm: map<Id, Id>, x: Id,
          src: Id, list: seq<Id>, i: nat,
               oc: map<Id, Id>, pc: map<Id, Id>, c: Id, k: Id)
    requires CopiedKids(was, s, o, pm, x, src, list, i) && src in s.store && i < |s.store[src].children|
    requires Extends(was, store) && oc.Keys == store.Keys - was.Keys
    requires c in oc && oc[c] == s.store[src].children[i] && Copied(store, s, oc, pc, c, NameOf(s, oc[c]))
    requires k in o + oc
    ensures CopyOf(store, s, o + oc, pm + pc[c := x], k, NameOf(s, (o + oc)[k]))
  {
    hide CopyOf, KeepsParent, Distinct;
    KidDisjoint(was, store, s, o, pm, x, src, list, i, oc, pc, c);
    if k in oc {
      CopyStays(store, store, s, oc, pc, o + oc, pm + pc[c := x], k, NameOf(s, oc[k]));
    } else {
      CopyStays(was, store, s, o, pm, o + oc, pm + pc[c := x], k, NameOf(s, o[k]));
    }
  }

  lemma AddKidParent(was: map<Id, Layer>, store: map<Id, Layer>, s: Shape, o: map<Id, Id>, pm: map<Id, Id>, x: Id,
          src: Id, list: seq<Id>, i: nat,
               oc: map<Id, Id>, pc: map<Id, Id>, c: Id, k: Id)
    requires CopiedKids(was, s, o, pm, x, src, list, i) && src in s.store && i < |s.store[src].children|
    requires Extends(was, store) && oc.Keys == store.Keys - was.Keys
    requires c in oc && oc[c] == s.store[src].children[i] && Copied(store, s, oc, pc, c, NameOf(s, oc[c]))
    requires k in pm + pc[c := x] && k in o + oc
    ensures if k in list + [c] then (pm + pc[c := x])[k] == x else KeepsParent(s, o + oc, pm + pc[c := x], k)
  {
    hide CopyOf, KeepsParent, Distinct;
    KidDisjoint(was, store, s, o, pm, x, src, list, i, oc, pc, c);
    if k in pc {
      KeepStays(s, oc, pc, o + oc, pm + pc[c := x], k);
    } else if k != c && k !in list {
      KeepStays(s, o, pm, o + oc, pm + pc[c := x], k);
    }
  }

  lemma DistinctMore(list: seq<Id>, c: Id)
    requires Distinct(list) && c !in list
    ensures Distinct(list + [c])
  {
  }

  lemma KeepStays(s: Shape, o: map<Id, Id>, pm: map<Id, Id>, o': map<Id, Id>, pm': map<Id, Id>, k: Id)
    requires k in pm && k in o && KeepsParent(s, o, pm, k)
    requires k in pm' && pm'[k] == pm[k] && (forall y :: y in o ==> y in o' && o'[y] == o[y])
    ensures KeepsParent(s, o', pm', k)
  {
  }

  lemma CopyStays(was: map<Id, Layer>, store: map<Id, Layer>, s: Shape, o: map<Id, Id>, pm: map<Id, Id>, o': map<Id,
          Id>, pm': map<Id, Id>, k: Id, name: string)
    requires k in o && CopyOf(was, s, o, pm, k, name) && k in store && store[k] == was[k]
    requires (forall y :: y in o ==> y in o' && o'[y] == o[y])
    requires forall y :: (y in pm && pm[y] == k) <==> (y in pm' && pm'[y] == k)
    ensures CopyOf(store, s, o', pm', k, name)
  {
  }

  lemma CopyDone(store: map<Id, Layer>, s: Shape, r: Id -> nat, o: map<Id, Id>, pm: map<Id, Id>, x: Id, src: Id,
          list: seq<Id>, name: string)
    requires Coherent(s, r) && src in s.parents && src in s.store
             && CopiedKids(store, s, o, pm, x, src, list, |s.store[src].children|)
    requires store[x] == Layer(s.store[src].kind, s.store[src].props.(name := name), s.store[src].tiles,
             s.store[src].mask, [])
    ensures Copied(store[x := store[x].(children := list)], s, o[x := src], pm, x, name)
  {
    hide CopyOf, KeepsParent, Distinct, Coherent;
    var store', o' := store[x := store[x].(children := list)], o[x := src];
    forall k | k in o' ensures CopyOf(store', s, o', pm, k, if k == x then name else NameOf(s, o'[k])) {
      if k == x {
        TopIsCopy(store, s, r, o, pm, x, src, list, name);
      } else {
        CopyStays(store, store', s, o, pm, o', pm, k, NameOf(s, o[k]));
      }
    }
    forall k | k in pm ensures KeepsParent(s, o', pm, k) {
      if k in list {
        var j :| 0 <= j < |list| && list[j] == k;
        KidBelow(s, r, src, j);
        assert o'[k] == s.store[src].children[j];
        KeptUnder(s, o', pm, k, x, src);
      } else {
        KeepStays(s, o, pm, o', pm, k);
      }
    }
  }

  lemma KeptUnder(s: Shape, o: map<Id, Id>, pm: map<Id, Id>, k: Id, x: Id, src: Id)
    requires k in o && k in pm && pm[k] == x && x in o && o[x] == src && o[k] in s.parents && s.parents[o[k]] == src
    ensures KeepsParent(s, o, pm, k)
  {
  }

  lemma TopIsCopy(store: map<Id, Layer>, s: Shape, r: Id -> nat, o: map<Id, Id>, pm: map<Id, Id>, x: Id, src: Id,
          list: seq<Id>, name: string)
    requires src in s.parents && src in s.store && CopiedKids(store, s, o, pm, x, src, list, |s.store[src].children|)
    requires store[x] == Layer(s.store[src].kind, s.store[src].props.(name := name), s.store[src].tiles,
             s.store[src].mask, [])
    ensures CopyOf(store[x := store[x].(children := list)], s, o[x := src], pm, x, name)
  {
    hide CopyOf, Distinct;
    var store' := store[x := store[x].(children := list)];
    forall c | c in pm ensures c in list <==> pm[c] == x {
      if c !in list { assert KeepsParent(s, o, pm, c); }
    }
    assert LocalList(store', x, pm);
    CopyFrom(store', s, o[x := src], pm, x, src, name);
  }

  lemma CopyFrom(store: map<Id, Layer>, s: Shape, o: map<Id, Id>, pm: map<Id, Id>, x: Id, src: Id, name: string)
    requires x in o && o[x] == src && x in store && x != NO_LAYER && src in s.parents && src in s.store
             && LocalList(store, x, pm)
    requires store[x].(children := []) == s.store[src].(children := [], props := s.store[src].props.(name := name))
    requires |store[x].children| == |s.store[src].children| && forall i :: 0 <= i < |store[x].children| ==>
             store[x].children[i] in o && o[store[x].children[i]] == s.store[src].children[i]
    ensures CopyOf(store, s, o, pm, x, name)
  {
  }

  lemma RootIsNoLayer(s: Shape, rank: Id -> nat)
    requires Coherent(s, rank)
    ensures NO_LAYER !in s.parents
  {
  }

  lemma InOwnList(s: Shape, rank: Id -> nat, id: Id)
    requires Coherent(s, rank) && id in s.parents
    ensures var p := s.parents[id];
            (p == NO_LAYER || p in s.store) && id in Kids(s, p) && Distinct(Kids(s, p))
  {
    hide Distinct;
    ParentAt(s, rank, id);
    ListAt(s, rank, s.parents[id]);
  }

  /** Everything in a subtree keeps its list while its top is taken out of the siblings. */
  lemma CutShape(s: Shape, rank: Id -> nat, id: Id)
    requires Coherent(s, rank) && id in s.parents
    ensures var p := s.parents[id];
            && (p == NO_LAYER || p in s.store)
            && forall y :: y in s.parents && rank(y) <= rank(id) ==>
                 y in SetKids(s, p, Without(Kids(s, p), id)).store
                   && SetKids(s, p, Without(Kids(s, p), id)).store[y].children == s.store[y].children
  {
    hide Distinct, Without, Listed;
    ParentAt(s, rank, id);
  }

  lemma {:induction false} SubWithin(s: Shape, rank: Id -> nat, x: Id, t: set<Id>, u: set<Id>)
    requires Coherent(s, rank) && IsSub(s, x, t) && IsSub(s, x, u)
    ensures t <= u
  {
    hide Coherent;
    forall y | y in t ensures y in u {
      if y !in u {
        assert y in t - u;
        var top := Highest(t - u, rank);
        ClimbSub(s, rank, x, t, u, top);
      }
    }
  }

  lemma ClimbSub(s: Shape, rank: Id -> nat, x: Id, t: set<Id>, u: set<Id>, y: Id)
    requires Coherent(s, rank) && IsSub(s, x, t) && IsSub(s, x, u) && y in t - u
    ensures exists z :: z in t - u && rank(y) < rank(z)
  {
    hide Coherent;
    UpInSub(s, rank, x, t, y);
    assert s.parents[y] in t - u;
  }

  /** There is only one subtree below a layer. */
  lemma SameSub(s: Shape, rank: Id -> nat, x: Id, t: set<Id>, u: set<Id>)
    requires Coherent(s, rank) && IsSub(s, x, t) && IsSub(s, x, u)
    ensures t == u
  {
    SubWithin(s, rank, x, t, u);
    SubWithin(s, rank, x, u, t);
  }

  /** `s'` is `s` without `id` and what is below it; all other lists are as before. */
  ghost predicate Removed(s: Shape, id: Id, s': Shape)
    requires id in s.parents
  {
    && s'.parents == s.parents - Sub(s, id) && SameButLists(s.store, s'.store)
    && (forall p :: Kids(s', p) == if p == s.parents[id] then Without(Kids(s, p), id) else Kids(s, p))
  }

  lemma CutEq(s: Shape, rank: Id -> nat, id: Id, t: set<Id>)
    requires Coherent(s, rank) && id in s.parents
    ensures Owner(s, s.parents[id]) && (s.parents[id] == NO_LAYER || s.parents[id] in s.store)
            && (forall c :: c in s.parents ==> c in s.store)
    ensures Cut(s, id, t) == SetKids(s, s.parents[id], Without(Kids(s, s.parents[id]), id)).(parents := s.parents - t)
    ensures SameButLists(s.store, Cut(s, id, t).store)
  {
    hide Without, Coherent;
    AllStored(s, rank);
    ParentAt(s, rank, id);
  }

  lemma CutIs(s: Shape, rank: Id -> nat, id: Id, t: set<Id>)
    requires Coherent(s, rank) && id in s.parents && t == Sub(s, id)
    ensures Owner(s, s.parents[id]) && (forall c :: c in s.parents ==> c in s.store) && Removed(s, id, Cut(s, id, t))
  {
    hide Without, Sub, Coherent, SameButLists;
    AllStored(s, rank);
    CutEq(s, rank, id, t);
  }

  lemma DropIs(g: Registry, t: set<Id>)
    ensures Drop(g, t).index == g.index - t && Drop(g, t).parents == g.parents - t
    ensures Drop(g, t).active == if g.active in t then NO_LAYER else g.active
  {
  }

  lemma Movable(s: Shape, rank: Id -> nat, id: Id, p: Id)
    requires Coherent(s, rank) && CanMove(s, id, p)
    ensures id in s.parents && (p == NO_LAYER || p in s.store)
  {
  }

  /** When a move is allowed. */
  ghost predicate CanMove(s: Shape, id: Id, p: Id) {
    id in s.parents && id != p && CanHold(s, p) && (p != NO_LAYER ==> !Below(s.parents, p, id))
  }

  /** `s'` is `s` with `id` taken out of its list and put into that of `p`; all other lists are as before. */
  ghost predicate MovedTo(s: Shape, id: Id, p: Id, at: int, s': Shape)
    requires id in s.parents
  {
    && s'.parents == s.parents[id := p] && SameButLists(s.store, s'.store)
    && (forall q ::
          var rest := if q == s.parents[id] then Without(Kids(s, q), id) else Kids(s, q);
          Kids(s', q) == if q == p then InsertAt(rest, ClampIndex(at, |rest|), id) else rest)
  }

  ghost function MoveRank(s: Shape, rank: Id -> nat, id: Id, p: Id): Id -> nat
    requires id in s.parents && Owner(s, s.parents[id]) && (forall c :: c in s.parents ==> c in s.store)
  {
    Lifted(rank, Sub(s, id), rank(id) + 1)
  }

  /** Moving is cutting out and putting in. */
  lemma MoveKeeps(s: Shape, rank: Id -> nat, id: Id, p: Id, at: int)
    requires Coherent(s, rank) && CanMove(s, id, p)
    ensures Owner(s, s.parents[id]) && (s.parents[id] == NO_LAYER || s.parents[id] in s.store)
            && (forall c :: c in s.parents ==> c in s.store)
    ensures Coherent(Moved(s, id, p, at), MoveRank(s, rank, id, p))
  {
    hide Coherent, Below, Without, InsertAt, Lifted, LocalTree, Sub, Cut, Moved, Inserted;
    MoveParts(s, rank, id, p);
    var t, c, pm := Sub(s, id), Cut(s, id, Sub(s, id)), ParentsIn(s.parents, Sub(s, id) - {id});
    InsertKeeps(c, rank, t, id, pm, p, ClampIndex(at, |Kids(c, p)|));
    MoveInTwo(s, rank, id, p, at);
  }

  /** The two parts between cutting out and putting in. */
  lemma MoveParts(s: Shape, rank: Id -> nat, id: Id, p: Id)
    requires Coherent(s, rank) && CanMove(s, id, p)
    ensures Owner(s, s.parents[id]) && (s.parents[id] == NO_LAYER || s.parents[id] in s.store)
            && (forall c :: c in s.parents ==> c in s.store)
    ensures var t, c, pm := Sub(s, id), Cut(s, id, Sub(s, id)), ParentsIn(s.parents, Sub(s, id) - {id});
            && Coherent(c, rank) && LocalTree(c.store, rank, t, id, pm) && t !! c.parents.Keys
            && CanHold(c, p) && (forall y :: y in c.parents ==> y in c.store)
  {
    hide Coherent, Below, Without, LocalTree, IsSub, Removed;
    ParentAt(s, rank, id);
    AllStored(s, rank);
    SubIsSub(s, rank, id);
    CutKeeps(s, rank, id, Sub(s, id));
    CutEq(s, rank, id, Sub(s, id));
    AllStored(Cut(s, id, Sub(s, id)), rank);
  }

  lemma MoveInTwo(s: Shape, rank: Id -> nat, id: Id, p: Id, at: int)
    requires Coherent(s, rank) && CanMove(s, id, p)
    requires Owner(s, s.parents[id]) && (s.parents[id] == NO_LAYER || s.parents[id] in s.store)
             && (forall c :: c in s.parents ==> c in s.store)
    requires var c := Cut(s, id, Sub(s, id)); CanHold(c, p) && (forall y :: y in c.parents ==> y in c.store)
    ensures var c, pm := Cut(s, id, Sub(s, id)), ParentsIn(s.parents, Sub(s, id) - {id});
            Inserted(c, id, pm, p, ClampIndex(at, |Kids(c, p)|)) == Moved(s, id, p, at)
  {
    hide Coherent, Below, Without, InsertAt, CanMove;
    var t, pm := Sub(s, id), ParentsIn(s.parents, Sub(s, id) - {id});
    assert (s.parents - t) + pm[id := p] == s.parents[id := p];
  }

  lemma MovedIs(s: Shape, rank: Id -> nat, id: Id, p: Id, at: int, s': Shape)
    requires id in s.parents && (s.parents[id] == NO_LAYER || s.parents[id] in s.store)
             && (p == NO_LAYER || p in s.store)
    requires s' == Moved(s, id, p, at)
    ensures MovedTo(s, id, p, at, s')
  {
    hide Without, InsertAt;
  }

  /** New objects nobody refers to yet change nothing. */
  lemma MoreStore(s: Shape, rank: Id -> nat, store: map<Id, Layer>, rank': Id -> nat)
    requires Coherent(s, rank) && NO_LAYER !in store && s.store.Keys <= store.Keys
    requires forall id :: id in s.store ==> store[id] == s.store[id] && rank'(id) == rank(id)
    requires forall id :: id in store && store[id].kind == Raster ==> store[id].children == []
    requires forall id :: id in store && id !in s.store ==> ListOk(store, rank', id)
    ensures Coherent(s.(store := store), rank')
  {
    hide Distinct;
    var s' := s.(store := store);
    forall c | c in s'.parents ensures ParentOk(s', rank', c) { assert ParentOk(s, rank, c); }
    forall p | Owner(s', p) ensures Listed(s', p) { assert Listed(s, p); }
    forall y | y in store ensures ListOk(store, rank', y) {
      if y in s.store { GroundAt(s, rank, y); }
    }
  }

  lemma FreshId(s: Shape, rank: Id -> nat, x: Id, kind: Kind, name: string)
    requires Coherent(s, rank) && InRange(s.store, x) && x > 0
    ensures x !in s.store && x !in s.parents
    ensures var more := s.store[x := NewLayer(kind, name)];
            Coherent(s.(store := more), rank) && LocalTree(more, rank, {x}, x, map[]) && InRange(more, x + 1)
  {
    hide Coherent, LocalTree;
    OneMore(s, rank, x, NewLayer(kind, name));
  }

  lemma OneMore(s: Shape, rank: Id -> nat, x: Id, layer: Layer)
    requires Coherent(s, rank) && x != NO_LAYER && x !in s.store && layer.children == []
    ensures Coherent(s.(store := s.store[x := layer]), rank)
    ensures LocalTree(s.store[x := layer], rank, {x}, x, map[])
    ensures x !in s.parents
  {
    MoreStore(s, rank, s.store[x := layer], rank);
    var none: map<Id, Id> := map[];
    assert none.Keys == {x} - {x};
    assert LocalList(s.store[x := layer], x, none);
  }

  lemma AddDone(s: Shape, rank: Id -> nat, x: Id, kind: Kind, name: string, p: Id, at: int, s': Shape)
    requires Coherent(s, rank) && InRange(s.store, x) && x > 0 && CanHold(s, p)
    requires var more := s.(store := s.store[x := NewLayer(kind, name)]);
             && CanHold(more, p) && (forall c :: c in s.parents ==> c in more.store)
             && Hung(more, x, p, ClampIndex(at, |Kids(more, p)|), s')
    ensures var more := s.(store := s.store[x := NewLayer(kind, name)]); Whole(more, x) && Named(more.store, x) == {x}
    ensures s' == Added(s, x, NewLayer(kind, name), p, at) && s'.store.Keys == s.store.Keys + {x}
    ensures s'.parents.Keys == s.parents.Keys + {x}
  {
    hide Coherent, Hung, Whole, Named, LocalTree, InsertAt, NewLayer, InRange;
    FreshId(s, rank, x, kind, name);
    var more := s.(store := s.store[x := NewLayer(kind, name)]);
    HungWhole(more, rank, {x}, x, map[], p, ClampIndex(at, |Kids(more, p)|), s');
    assert more.parents + map[x := p] == more.parents[x := p];
  }

  lemma TopInStore(store: map<Id, Layer>, r: Id -> nat, t: set<Id>, x: Id, pm: map<Id, Id>)
    requires LocalTree(store, r, t, x, pm)
    ensures x in t && x in store && x != NO_LAYER
  {
  }

  // ---- enrolling child by child --------------------------------------------------------------------

  /** What the first `i` of `kids` name. */
  ghost function NamedBy(store: map<Id, Layer>, kids: seq<Id>, i: nat): set<Id>
    requires i <= |kids|
  {
    set y | y in store && exists j :: 0 <= j < i && Names(store, kids[j], y)
  }

  lemma NamedByNext(store: map<Id, Layer>, kids: seq<Id>, i: nat)
    requires i < |kids|
    ensures NamedBy(store, kids, i + 1) == NamedBy(store, kids, i) + Named(store, kids[i])
  {
    hide Names;
  }

  lemma NamedSplit(store: map<Id, Layer>, x: Id)
    requires x in store
    ensures Named(store, x) == {x} + NamedBy(store, store[x].children, |store[x].children|)
  {
    hide Names;
    var kids := store[x].children;
    forall y | y in store ensures y in Named(store, x) <==> y == x || y in NamedBy(store, kids, |kids|) {
      NamesFirst(store, x, y);
      if c :| c in kids && Names(store, c, y) {
        var j :| 0 <= j < |kids| && kids[j] == c;
        assert Names(store, kids[j], y);
      }
    }
  }

  lemma NamedKid(store: map<Id, Layer>, rank: Id -> nat, x: Id, i: nat)
    requires Grounded(store, rank) && x in store && i < |store[x].children|
    ensures var k := store[x].children[i];
            k in store && k in store[x].children && rank(k) < rank(x) && x !in Named(store, k)
  {
    hide Named, Distinct;
    assert ListOk(store, rank, x);
    var k := store[x].children[i];
    assert k in store[x].children;
    if x in Named(store, k) { TopOfNamed(store, rank, k, x); }
  }

  lemma EnrolledTop(store: map<Id, Layer>, x: Id, p: Id, before: map<Id, Id>)
    ensures Enrolled(store, x, p, {x} + {}, before, before[x := p])
  {
  }

  lemma EnrolledMore(store: map<Id, Layer>, x: Id, p: Id, u: set<Id>, k: Id, v: set<Id>,
                     before: map<Id, Id>, mid: map<Id, Id>, after: map<Id, Id>)
    requires Enrolled(store, x, p, {x} + u, before, mid) && Enrolled(store, k, x, v, mid, after)
    requires x in store && k in store[x].children && x !in v
    ensures Enrolled(store, x, p, ({x} + u) + v, before, after)
  {
  }

  lemma IndexedKeys(store: map<Id, Layer>, x: Id, p: Id, before: map<Id, Id>, after: map<Id, Id>)
    requires Enrolled(store, x, p, Named(store, x), before, after)
    ensures after.Keys == before.Keys + Named(store, x)
  {
    hide Named;
  }

  lemma NamedHasTop(store: map<Id, Layer>, x: Id)
    requires x in store
    ensures x in Named(store, x)
  {
    NamesSelf(store, x);
  }

  /** So far every entry was new: `x`, and below its first `i` children. */
  ghost predicate Clean(store: map<Id, Layer>, x: Id, index: set<Id>, i: nat)
    requires x in store && i <= |store[x].children|
  {
    x !in index && forall j :: 0 <= j < i ==> CleanKid(store, x, index, j)
  }

  ghost predicate CleanKid(store: map<Id, Layer>, x: Id, index: set<Id>, j: nat)
    requires x in store && j < |store[x].children|
  {
    var kids := store[x].children;
    Named(store, kids[j]) !! index + {x} + NamedBy(store, kids, j) && Single(store, Named(store, kids[j]))
  }

  lemma CleanStart(store: map<Id, Layer>, x: Id, index: set<Id>)
    requires x in store
    ensures Clean(store, x, index, 0) <==> x !in index
    ensures NamedBy(store, store[x].children, 0) == {}
  {
  }

  lemma CleanNext(store: map<Id, Layer>, x: Id, index: set<Id>, i: nat)
    requires x in store && i < |store[x].children|
    ensures var kids := store[x].children;
            Clean(store, x, index, i + 1) <==>
              && Clean(store, x, index, i) && Named(store, kids[i]) !! index + {x} + NamedBy(store, kids, i)
              && Single(store, Named(store, kids[i]))
  {
    hide Named, NamedBy, Single;
    assert CleanKid(store, x, index, i) || !CleanKid(store, x, index, i);
  }

  /** Every entry was new iff what `x` names is a tree of its own. */
  lemma CleanAll(store: map<Id, Layer>, rank: Id -> nat, x: Id, index: set<Id>)
    requires Grounded(store, rank) && x in store
    ensures Clean(store, x, index, |store[x].children|) <==> Named(store, x) !! index && Single(store, Named(store, x))
  {
    hide Named, NamedBy, Single, Grounded, CleanKid, Names;
    var kids := store[x].children;
    NamedSplit(store, x);
    NamedHasTop(store, x);
    if Clean(store, x, index, |kids|) {
      forall y | y in Named(store, x) ensures y !in index {
        if y != x {
          var j := KidNaming(store, kids, y);
          assert CleanKid(store, x, index, j);
          KidApart(store, x, index, j, y);
        }
      }
      forall z, w, y | z in Named(store, x) && w in Named(store, x) && z in store && w in store
          && y in store[z].children && y in store[w].children
        ensures z == w
      {
        CleanSingle(store, rank, x, index, z, w, y);
      }
      SingleFrom(store, Named(store, x));
    }
    if Named(store, x) !! index && Single(store, Named(store, x)) {
      forall j | 0 <= j < |kids| ensures CleanKid(store, x, index, j) { SingleClean(store, rank, x, index, j); }
    }
  }

  lemma SingleFrom(store: map<Id, Layer>, t: set<Id>)
    requires forall z, w, y :: z in t && w in t && z in store && w in store ==>
               y in store[z].children && y in store[w].children ==> z == w
    ensures Single(store, t)
  {
  }

  lemma KidNaming(store: map<Id, Layer>, kids: seq<Id>, y: Id) returns (j: nat)
    requires y in NamedBy(store, kids, |kids|)
    ensures j < |kids| && y in Named(store, kids[j])
  {
    hide Names;
    j :| 0 <= j < |kids| && Names(store, kids[j], y);
  }

  lemma KidApart(store: map<Id, Layer>, x: Id, index: set<Id>, j: nat, y: Id)
    requires x in store && j < |store[x].children| && CleanKid(store, x, index, j)
             && y in Named(store, store[x].children[j])
    ensures y !in index && y != x && forall m :: 0 <= m < j ==> y !in Named(store, store[x].children[m])
  {
    hide Names;
  }

  /** A layer met below one child is met below no other. */
  lemma KidUnique(store: map<Id, Layer>, x: Id, index: set<Id>, j: nat, m: nat, y: Id)
    requires x in store && j < |store[x].children| && m < |store[x].children| && CleanKid(store, x, index, j)
             && CleanKid(store, x, index, m)
    requires y in Named(store, store[x].children[j]) && y in Named(store, store[x].children[m])
    ensures j == m
  {
    hide Named, NamedBy, CleanKid;
    KidApart(store, x, index, j, y);
    KidApart(store, x, index, m, y);
  }

  lemma CleanSingle(store: map<Id, Layer>, rank: Id -> nat, x: Id, index: set<Id>, z: Id, w: Id, y: Id)
    requires Grounded(store, rank) && x in store && Clean(store, x, index, |store[x].children|)
    requires z in Named(store, x) && w in Named(store, x) && z in store && w in store && y in store[z].children
             && y in store[w].children
    ensures z == w
  {
    hide Named, NamedBy, CleanKid, Grounded, Single;
    var kids := store[x].children;
    NamedSplit(store, x);
    if z == x && w != x { CleanTop(store, rank, x, index, w, y); }
    if z != x && w == x { CleanTop(store, rank, x, index, z, y); }
    if z != x && w != x {
      var j := KidNaming(store, kids, z);
      var m := KidNaming(store, kids, w);
      NamedOnward(store, rank, kids[j], z, y);
      NamedOnward(store, rank, kids[m], w, y);
      assert CleanKid(store, x, index, j) && CleanKid(store, x, index, m);
      KidUnique(store, x, index, j, m, y);
      SingleAt(store, x, index, j, z, w, y);
    }
  }

  lemma SingleAt(store: map<Id, Layer>, x: Id, index: set<Id>, j: nat, z: Id, w: Id, y: Id)
    requires x in store && j < |store[x].children| && CleanKid(store, x, index, j)
    requires z in Named(store, store[x].children[j]) && w in Named(store, store[x].children[j])
    requires z in store && w in store && y in store[z].children && y in store[w].children
    ensures z == w
  {
    hide Named, NamedBy;
  }

  lemma NamedOnward(store: map<Id, Layer>, rank: Id -> nat, x: Id, z: Id, y: Id)
    requires Grounded(store, rank) && z in Named(store, x) && y in store[z].children
    ensures y in Named(store, x)
  {
    hide Names;
    assert ListOk(store, rank, z);
    NamesChild(store, x, z, y);
  }

  /** A child of `x` is on no list further down. */
  lemma CleanTop(store: map<Id, Layer>, rank: Id -> nat, x: Id, index: set<Id>, w: Id, y: Id)
    requires Grounded(store, rank) && x in store && Clean(store, x, index, |store[x].children|)
    requires w in Named(store, x) && w != x && w in store && y in store[x].children
    ensures y !in store[w].children
  {
    hide Named, NamedBy, CleanKid;
    var kids := store[x].children;
    NamedSplit(store, x);
    var m := KidNaming(store, kids, w);
    var j :| 0 <= j < |kids| && kids[j] == y;
    assert ListOk(store, rank, x) && ListOk(store, rank, w);
    NamedHasTop(store, y);
    if y in store[w].children {
      NamedOnward(store, rank, kids[m], w, y);
      assert CleanKid(store, x, index, j) && CleanKid(store, x, index, m);
      KidUnique(store, x, index, j, m, y);
      TopOfNamed(store, rank, y, w);
    }
  }

  lemma SingleClean(store: map<Id, Layer>, rank: Id -> nat, x: Id, index: set<Id>, j: nat)
    requires Grounded(store, rank) && x in store && j < |store[x].children|
    requires Named(store, x) !! index && Single(store, Named(store, x))
    ensures CleanKid(store, x, index, j)
  {
    hide Named, NamedBy, Grounded, Names;
    var kids := store[x].children;
    NamedKid(store, rank, x, j);
    KidWithin(store, x, j);
    forall y | y in Named(store, kids[j]) ensures y !in NamedBy(store, kids, j) {
      if y in NamedBy(store, kids, j) {
        var m := EarlierKid(store, kids, j, y);
        KidsShare(store, rank, x, j, m, y);
      }
    }
    SingleLess(store, Named(store, x), Named(store, kids[j]));
  }

  lemma SingleLess(store: map<Id, Layer>, t: set<Id>, u: set<Id>)
    requires Single(store, t) && u <= t
    ensures Single(store, u)
  {
  }

  lemma EarlierKid(store: map<Id, Layer>, kids: seq<Id>, j: nat, y: Id) returns (m: nat)
    requires j <= |kids| && y in NamedBy(store, kids, j)
    ensures m < j && y in Named(store, kids[m])
  {
    hide Names;
    m :| 0 <= m < j && Names(store, kids[m], y);
  }

  lemma KidWithin(store: map<Id, Layer>, x: Id, j: nat)
    requires x in store && j < |store[x].children|
    ensures Named(store, store[x].children[j]) <= Named(store, x)
  {
    hide Names;
    forall y | y in Named(store, store[x].children[j]) ensures y in Named(store, x) {
      NamesFirst(store, x, y);
    }
  }

  /** Two children that named one layer would give some layer two owners. */
  lemma KidsShare(store: map<Id, Layer>, rank: Id -> nat, x: Id, j: nat, m: nat, y: Id)
    requires Grounded(store, rank) && x in store && m < j < |store[x].children| && Single(store, Named(store, x))
    requires y in Named(store, store[x].children[j])
    ensures y !in Named(store, store[x].children[m])
  {
    hide Named, Single, Grounded, IsNamed;
    var kids := store[x].children;
    var both := Named(store, kids[j]) * Named(store, kids[m]);
    if y in both {
      var top := Highest(both, rank);
      ShareUp(store, rank, x, j, m, top);
    }
  }

  lemma ShareUp(store: map<Id, Layer>, rank: Id -> nat, x: Id, j: nat, m: nat, y: Id)
    requires Grounded(store, rank) && x in store && m < j < |store[x].children| && Single(store, Named(store, x))
    requires y in Named(store, store[x].children[j]) && y in Named(store, store[x].children[m])
    ensures exists z ::
              z in Named(store, store[x].children[j]) * Named(store, store[x].children[m]) && rank(y) < rank(z)
  {
    hide Named, Distinct;
    var kids := store[x].children;
    assert ListOk(store, rank, x);
    NamedHasTop(store, x);
    NamedKid(store, rank, x, j);
    NamedKid(store, rank, x, m);
    KidWithin(store, x, j);
    KidWithin(store, x, m);
    var z := ShareOwner(store, rank, x, j, y);
    var w := ShareOwner(store, rank, x, m, y);
    DistinctKids(store, rank, x, j, m);
  }

  lemma DistinctKids(store: map<Id, Layer>, rank: Id -> nat, x: Id, j: nat, m: nat)
    requires Grounded(store, rank) && x in store && m < j < |store[x].children|
    ensures store[x].children[j] != store[x].children[m]
  {
    assert ListOk(store, rank, x);
  }

  /** The owner of `y` below child `j`, or `x` if `y` is that child. */
  lemma ShareOwner(store: map<Id, Layer>, rank: Id -> nat, x: Id, j: nat, y: Id) returns (z: Id)
    requires Grounded(store, rank) && x in store && j < |store[x].children| && y in Named(store, store[x].children[j])
    ensures z in store && y in store[z].children && rank(y) < rank(z)
    ensures if y == store[x].children[j] then z == x else z in Named(store, store[x].children[j])
  {
    hide Named, Distinct;
    var k := store[x].children[j];
    NamedKid(store, rank, x, j);
    if y == k {
      z := x;
    } else {
      NamedIs(store, rank, k);
      assert HasOwner(store, Named(store, k), y);
      z :| z in Named(store, k) && z in store && y in store[z].children;
      assert ListOk(store, rank, z);
    }
  }

  lemma WholeIs(s: Shape, x: Id)
    ensures Whole(s, x) <==> Named(s.store, x) !! s.parents.Keys && Single(s.store, Named(s.store, x))
  {
  }

  /** In order or doubled: there is nothing in between. */
  lemma InsertResult(s: Shape, rank: Id -> nat, x: Id, p: Id, i: nat, s': Shape)
    requires Coherent(s, rank) && x in s.store && x !in s.parents && CanHold(s, p) && i <= |Kids(s, p)|
    requires (forall c :: c in s.parents ==> c in s.store) && Hung(s, x, p, i, s')
    ensures SameButLists(s.store, s'.store)
    ensures if Whole(s, x) then Coherent(s', Lifted(rank, Named(s.store, x), rank(x) + 1))
            else exists y :: Doubled(s', y)
  {
    hide Coherent, Whole, Named, Enrolled, Lifted, Doubled, InsertAt;
    if p != NO_LAYER { ParentAt(s, rank, p); }
    if Whole(s, x) {
      var t := Named(s.store, x);
      WholeLocal(s, rank, x);
      WholeApart(s, x);
      HungWhole(s, rank, t, x, OwnersIn(s.store, t, x), p, i, s');
      InsertKeeps(s, rank, t, x, OwnersIn(s.store, t, x), p, i);
    } else {
      var y := HungBreaks(s, rank, x, p, i, s');
    }
  }

  /** What an insertion leaves behind, from what it did to the three structures. */
  lemma InsertDone(s: Shape, rank: Id -> nat, x: Id, p: Id, i: nat, s': Shape, n: Id)
    requires Coherent(s, rank) && x in s.store && x !in s.parents && CanHold(s, p) && i <= |Kids(s, p)|
    requires (forall c :: c in s.parents ==> c in s.store) && InRange(s.store, n)
    requires Hung(s, x, p, i, s')
    ensures SameButLists(s.store, s'.store) && InRange(s'.store, n)
    ensures s'.parents.Keys == s.parents.Keys + Named(s.store, x) && x in Named(s.store, x) && x in s'.store
    ensures if Whole(s, x) then Coherent(s', Lifted(rank, Named(s.store, x), rank(x) + 1))
            else exists y :: Doubled(s', y)
    ensures Whole(s, x) <==> Named(s.store, x) !! s.parents.Keys && Single(s.store, Named(s.store, x))
  {
    hide Coherent, InsertAt, Lifted, SameButLists, InRange, Named, Whole, Enrolled, Doubled, Single;
    WholeIs(s, x);
    IndexedKeys(s.store, x, p, s.parents, s'.parents);
    InsertResult(s, rank, x, p, i, s');
    RangeKept(s.store, s'.store, n);
    NamedHasTop(s.store, x);
    StoreKept(s.store, s'.store, x);
  }

  lemma StoreKept(a: map<Id, Layer>, b: map<Id, Layer>, x: Id)
    requires SameButLists(a, b) && x in a
    ensures x in b
  {
  }

  lemma WholeApart(s: Shape, x: Id)
    requires Whole(s, x)
    ensures Named(s.store, x) !! s.parents.Keys
  {
  }

  /** Removing is cutting out: the rest stays in order and what goes is a tree of its own. */
  lemma RemoveKeeps(s: Shape, rank: Id -> nat, id: Id)
    requires Coherent(s, rank) && id in s.parents
    ensures Owner(s, s.parents[id]) && (s.parents[id] == NO_LAYER || s.parents[id] in s.store)
    ensures var c := SetKids(s, s.parents[id], Without(Kids(s, s.parents[id]), id)).(parents := s.parents - Sub(s, id));
            && Coherent(c, rank) && Removed(s, id, c) && SameButLists(s.store, c.store)
            && Named(c.store, id) == Sub(s, id) && Whole(c, id)
  {
    hide Coherent, Cut, Without, Sub, IsSub, Removed, SameButLists, Named, LocalTree, Whole;
    var t := Sub(s, id);
    SubIsSub(s, rank, id);
    CutKeeps(s, rank, id, t);
    CutEq(s, rank, id, t);
    CutIs(s, rank, id, t);
    RemovedWhole(Cut(s, id, t), rank, t, id, ParentsIn(s.parents, t - {id}));
  }

  lemma RemovedWhole(s: Shape, rank: Id -> nat, t: set<Id>, x: Id, pm: map<Id, Id>)
    requires Coherent(s, rank) && LocalTree(s.store, rank, t, x, pm) && t !! s.parents.Keys
    ensures Named(s.store, x) == t && Whole(s, x)
  {
    hide Coherent, LocalTree, Named, Single;
    LocalTops(s.store, rank, t, x, pm);
    GroundAt(s, rank, x);
    LocalNamed(s.store, rank, t, x, pm);
  }

  // ---- gathering a subtree child by child -------------------------------------------------------------

  /** `t` holds the first `i` children of `x` with everything below them. */
  ghost predicate Gathered(s: Shape, r: Id -> nat, x: Id, i: nat, t: set<Id>)
    requires x in s.store
  {
    && i <= |s.store[x].children| && t <= s.parents.Keys
    && (forall j :: 0 <= j < i ==> s.store[x].children[j] in t)
    && (forall y :: y in t ==> r(y) < r(x) && (s.parents[y] == x || s.parents[y] in t))
    && (forall y :: y in s.parents && s.parents[y] in t ==> y in t)
  }

  lemma StartGathering(s: Shape, r: Id -> nat, x: Id)
    requires x in s.store
    ensures Gathered(s, r, x, 0, {})
  {
  }

  lemma KidBelow(s: Shape, r: Id -> nat, x: Id, i: nat)
    requires Coherent(s, r) && x in s.parents && x in s.store && i < |s.store[x].children|
    ensures var k := s.store[x].children[i]; k in s.parents && s.parents[k] == x && r(k) < r(x)
  {
    hide Coherent;
    var k := s.store[x].children[i];
    ListAt(s, r, x);
    ParentAt(s, r, x);
    assert k in Kids(s, x);
    ParentAt(s, r, k);
  }

  lemma GatherOne(s: Shape, r: Id -> nat, x: Id, i: nat, t: set<Id>, u: set<Id>)
    requires Coherent(s, r) && x in s.parents && x in s.store && Gathered(s, r, x, i, t) && i < |s.store[x].children|
    requires IsSub(s, s.store[x].children[i], u) && forall y :: y in u ==> r(y) <= r(s.store[x].children[i])
    ensures Gathered(s, r, x, i + 1, t + u)
  {
    hide Coherent;
    KidBelow(s, r, x, i);
  }

  lemma GatheredAll(s: Shape, r: Id -> nat, x: Id, t: set<Id>)
    requires Coherent(s, r) && x in s.parents && x in s.store && Gathered(s, r, x, |s.store[x].children|, t)
    ensures IsSub(s, x, t + {x}) && (forall y :: y in t + {x} ==> r(y) <= r(x)) && x !in t
  {
    hide Coherent;
    ListAt(s, r, x);
    ParentAt(s, r, x);
    forall y | y in s.parents && s.parents[y] in t + {x} ensures y in t + {x} {
      if s.parents[y] == x { assert y in Kids(s, x); }
    }
  }
}
