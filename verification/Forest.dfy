/** The layer forest as values: what it means for the child lists and the parent map of
    core/src/layer.cpp to describe one finite forest, and what inserting and cutting out a subtree do. */
module Forest {
  import opened Bytes
  import opened Geometry

  type Id = nat

  /** `kInvalidLayerId`: as a parent, the invisible root. */
  const NO_LAYER: Id := 0

  datatype Kind = Raster | Group

  datatype Props = Props(name: string, opacity: real, blend: nat, visible: bool, locked: bool, alphaLocked: bool)

  type Pixels = map<Coord, seq<u8>>

  datatype Mask = NoMask | Mask(pixels: Pixels)

  /** One layer object. Layers are kept by id, as every object has its own. */
  datatype Layer = Layer(kind: Kind, props: Props, tiles: Pixels, mask: Mask, children: seq<Id>)

  datatype Shape = Shape(store: map<Id, Layer>, parents: map<Id, Id>, roots: seq<Id>)

  ghost predicate Distinct(s: seq<Id>) {
    forall i, j :: 0 <= i < j < |s| ==> s[i] != s[j]
  }

  function Kids(s: Shape, p: Id): seq<Id> {
    if p == NO_LAYER then s.roots else if p in s.store then s.store[p].children else []
  }

  function SetKids(s: Shape, p: Id, list: seq<Id>): Shape
    requires p == NO_LAYER || p in s.store
  {
    if p == NO_LAYER then s.(roots := list) else s.(store := s.store[p := s.store[p].(children := list)])
  }

  /** Nothing but child lists differs. */
  ghost predicate SameButLists(a: map<Id, Layer>, b: map<Id, Layer>) {
    b.Keys == a.Keys && forall c :: c in a ==> b[c].(children := a[c].children) == a[c]
  }

  predicate Owner(s: Shape, p: Id) { p == NO_LAYER || p in s.parents }

  /** The list of `p` holds exactly the layers whose parent is `p`, each once. */
  ghost predicate Listed(s: Shape, p: Id) {
    Distinct(Kids(s, p)) && forall c :: c in Kids(s, p) <==> c in s.parents && s.parents[c] == p
  }

  ghost predicate ParentOk(s: Shape, rank: Id -> nat, c: Id)
    requires c in s.parents
  {
    var p := s.parents[c];
    p == NO_LAYER || (p in s.parents && p in s.store && s.store[p].kind == Group && rank(c) < rank(p))
  }

  /** The list of a layer, attached or not, names layers that exist, of lower rank, each once. */
  ghost predicate ListOk(store: map<Id, Layer>, rank: Id -> nat, y: Id)
    requires y in store
  {
    Distinct(store[y].children) && forall c :: c in store[y].children ==> c in store && rank(c) < rank(y)
  }

  /** No child list, however old, leads back to its owner: walks down the lists end. */
  ghost predicate Grounded(store: map<Id, Layer>, rank: Id -> nat) {
    forall y :: y in store ==> ListOk(store, rank, y)
  }

  /** Lists and parents describe the same forest of attached layers; `rank` witnesses that no chain runs
      in a circle. */
  ghost predicate Coherent(s: Shape, rank: Id -> nat) {
    && NO_LAYER !in s.store
    && (forall c :: c in s.parents ==> c in s.store)
    && (forall c :: c in s.store && s.store[c].kind == Raster ==> s.store[c].children == [])
    && (forall c :: c in s.parents ==> ParentOk(s, rank, c))
    && (forall p :: Owner(s, p) ==> Listed(s, p))
    && Grounded(s.store, rank)
  }

  lemma CoherentFrom(s: Shape, rank: Id -> nat)
    requires NO_LAYER !in s.store && (forall c :: c in s.parents ==> c in s.store)
    requires forall c :: c in s.store && s.store[c].kind == Raster ==> s.store[c].children == []
    requires forall c :: c in s.parents ==> ParentOk(s, rank, c)
    requires forall p :: Owner(s, p) ==> Listed(s, p)
    requires forall y :: y in s.store ==> ListOk(s.store, rank, y)
    ensures Coherent(s, rank)
  {
    hide Listed, ParentOk, ListOk;
  }

  lemma GroundAt(s: Shape, rank: Id -> nat, y: Id)
    requires Coherent(s, rank) && y in s.store
    ensures Grounded(s.store, rank) && ListOk(s.store, rank, y)
  {
  }

  lemma ListAt(s: Shape, rank: Id -> nat, p: Id)
    requires Coherent(s, rank) && Owner(s, p)
    ensures Listed(s, p)
  {
  }

  lemma ParentAt(s: Shape, rank: Id -> nat, c: Id)
    requires Coherent(s, rank) && c in s.parents
    ensures c in s.store && c != NO_LAYER && ParentOk(s, rank, c)
  {
  }

  lemma AllStored(s: Shape, rank: Id -> nat)
    requires Coherent(s, rank)
    ensures forall c :: c in s.parents ==> c in s.store
  {
  }

  // ---- ancestors ------------------------------------------------------------------------------------

  predicate StepsUp(parents: map<Id, Id>, path: seq<Id>, i: nat)
    requires i + 1 < |path|
  {
    path[i] in parents && parents[path[i]] == path[i + 1] && path[i + 1] != NO_LAYER
  }

  ghost predicate IsPath(parents: map<Id, Id>, path: seq<Id>) {
    |path| >= 2 && forall i :: 0 <= i < |path| - 1 ==> StepsUp(parents, path, i)
  }

  /** `y` is a proper descendant of `x`. */
  ghost predicate Below(parents: map<Id, Id>, y: Id, x: Id) {
    exists path :: IsPath(parents, path) && path[0] == y && path[|path| - 1] == x
  }

  lemma BelowStep(parents: map<Id, Id>, y: Id, x: Id)
    ensures Below(parents, y, x) <==>
            y in parents && parents[y] != NO_LAYER && (parents[y] == x || Below(parents, parents[y], x))
  {
    if Below(parents, y, x) {
      var path :| IsPath(parents, path) && path[0] == y && path[|path| - 1] == x;
      assert StepsUp(parents, path, 0);
      if |path| > 2 { PathTail(parents, path); }
    }
    if y in parents && parents[y] != NO_LAYER {
      if parents[y] == x {
        assert StepsUp(parents, [y, x], 0) && IsPath(parents, [y, x]);
      } else if Below(parents, parents[y], x) {
        var path :| IsPath(parents, path) && path[0] == parents[y] && path[|path| - 1] == x;
        PathCons(parents, y, path);
      }
    }
  }

  lemma PathTail(parents: map<Id, Id>, path: seq<Id>)
    requires IsPath(parents, path) && |path| > 2
    ensures IsPath(parents, path[1..])
  {
    forall i | 0 <= i < |path| - 2 ensures StepsUp(parents, path[1..], i) {
      assert StepsUp(parents, path, i + 1);
    }
  }

  lemma PathCons(parents: map<Id, Id>, y: Id, path: seq<Id>)
    requires IsPath(parents, path) && y in parents && parents[y] == path[0] != NO_LAYER
    ensures IsPath(parents, [y] + path)
  {
    forall i | 0 <= i < |path| ensures StepsUp(parents, [y] + path, i) {
      if i > 0 { assert StepsUp(parents, path, i - 1); }
    }
  }

  /** A finite set has a member of highest rank. */
  lemma {:induction false} Highest(d: set<Id>, rank: Id -> nat) returns (top: Id)
    requires d != {}
    ensures top in d && forall y :: y in d ==> rank(y) <= rank(top)
    decreases |d|
  {
    var x :| x in d;
    top := x;
    if d != {x} {
      var rest := Highest(d - {x}, rank);
      if rank(rest) > rank(x) { top := rest; }
    }
  }

  // ---- cutting out --------------------------------------------------------------------------------

  /** `t` is `x` with everything below it. */
  ghost predicate IsSub(s: Shape, x: Id, t: set<Id>) {
    && x in t && t <= s.parents.Keys
    && (forall y :: y in t && y != x ==> s.parents[y] in t)
    && (forall y :: y in s.parents && s.parents[y] in t ==> y in t)
  }

  ghost function Sub(s: Shape, x: Id): set<Id> {
    set y | y in s.parents && (y == x || Below(s.parents, y, x))
  }

  lemma SubIsSub(s: Shape, rank: Id -> nat, x: Id)
    requires Coherent(s, rank) && x in s.parents
    ensures IsSub(s, x, Sub(s, x))
  {
    forall y | y in s.parents
      ensures y in Sub(s, x) && y != x ==> s.parents[y] in Sub(s, x)
      ensures s.parents[y] in Sub(s, x) ==> y in Sub(s, x)
    {
      BelowStep(s.parents, y, x);
      assert ParentOk(s, rank, y);
    }
  }

  lemma UpInSub(s: Shape, rank: Id -> nat, x: Id, t: set<Id>, y: Id)
    requires Coherent(s, rank) && IsSub(s, x, t) && y in t
    ensures y == x || (s.parents[y] in t && rank(s.parents[y]) > rank(y))
  {
    assert ParentOk(s, rank, y);
  }

  lemma TopOfSub(s: Shape, rank: Id -> nat, x: Id, t: set<Id>)
    requires Coherent(s, rank) && IsSub(s, x, t)
    ensures s.parents[x] !in t && forall y :: y in t ==> rank(y) <= rank(x)
  {
    var top := Highest(t, rank);
    UpInSub(s, rank, x, t, top);
    assert ParentOk(s, rank, x);
  }

  function Without(list: seq<Id>, x: Id): (r: seq<Id>)
    ensures forall c :: c in r <==> c in list && c != x
  {
    if |list| == 0 then [] else (if list[0] == x then [] else [list[0]]) + Without(list[1..], x)
  }

  lemma {:induction false} WithoutErases(list: seq<Id>, i: nat)
    requires Distinct(list) && i < |list|
    ensures Without(list, list[i]) == list[..i] + list[i + 1..]
  {
    if i == 0 {
      WithoutAbsent(list[1..], list[0]);
      assert list[..0] + list[1..] == list[1..];
    } else {
      hide Without;
      WithoutErases(list[1..], i - 1);
      WithoutStep(list, list[i]);
      assert list[1..][..i - 1] + list[1..][i..] == list[1..i] + list[i + 1..];
      assert [list[0]] + (list[1..i] + list[i + 1..]) == list[..i] + list[i + 1..];
    }
  }

  lemma WithoutStep(list: seq<Id>, x: Id)
    requires |list| > 0 && list[0] != x
    ensures Without(list, x) == [list[0]] + Without(list[1..], x)
  {
  }

  lemma {:induction false} WithoutAbsent(list: seq<Id>, x: Id)
    requires x !in list
    ensures Without(list, x) == list
  {
    if |list| > 0 { WithoutAbsent(list[1..], x); }
  }

  /** What is left when the first `x` is taken out: `erase` of what `find` found. */
  function DropFirst(list: seq<Id>, x: Id): seq<Id> {
    if |list| == 0 then [] else if list[0] == x then list[1..] else [list[0]] + DropFirst(list[1..], x)
  }

  lemma {:induction false} DropFirstAt(list: seq<Id>, i: nat)
    requires i < |list| && list[i] !in list[..i]
    ensures DropFirst(list, list[i]) == list[..i] + list[i + 1..]
  {
    if i == 0 {
      assert list[..0] + list[1..] == list[1..];
    } else {
      assert list[0] in list[..i] && forall c :: c in list[1..][..i - 1] ==> c in list[..i];
      DropFirstAt(list[1..], i - 1);
      assert [list[0]] + (list[1..][..i - 1] + list[1..][i..]) == list[..i] + list[i + 1..];
    }
  }

  /** In a list without repetitions the first is the only one. */
  lemma FirstIsAll(list: seq<Id>, x: Id)
    requires Distinct(list) && x in list
    ensures DropFirst(list, x) == Without(list, x)
  {
    hide DropFirst, Without;
    var i :| 0 <= i < |list| && list[i] == x;
    DropFirstAt(list, i);
    WithoutErases(list, i);
  }

  lemma {:induction false} DropFirstCount(list: seq<Id>, x: Id, c: Id)
    requires x in list
    ensures multiset(DropFirst(list, x))[c] == multiset(list)[c] - if c == x then 1 else 0
  {
    assert list == [list[0]] + list[1..];
    if list[0] != x { DropFirstCount(list[1..], x, c); }
  }

  function Cut(s: Shape, x: Id, t: set<Id>): Shape
    requires x in s.parents && Owner(s, s.parents[x]) && (forall c :: c in s.parents ==> c in s.store)
  {
    SetKids(s, s.parents[x], Without(Kids(s, s.parents[x]), x)).(parents := s.parents - t)
  }

  lemma DistinctWithout(list: seq<Id>, x: Id)
    requires Distinct(list)
    ensures Distinct(Without(list, x))
  {
    if x in list {
      var i :| 0 <= i < |list| && list[i] == x;
      WithoutErases(list, i);
      assert Distinct(list[..i] + list[i + 1..]);
    } else {
      WithoutAbsent(list, x);
    }
  }

  /** A detached subtree on its own: `pm` gives every member but the top its one owner. */
  ghost predicate LocalTree(store: map<Id, Layer>, rank: Id -> nat, t: set<Id>, x: Id, pm: map<Id, Id>) {
    && x in t && NO_LAYER !in t && t <= store.Keys && pm.Keys == t - {x}
    && (forall y :: y in t ==> LocalList(store, y, pm))
    && (forall c :: c in pm ==> pm[c] in t && store[pm[c]].kind == Group && rank(c) < rank(pm[c]))
  }

  ghost predicate LocalList(store: map<Id, Layer>, y: Id, pm: map<Id, Id>)
    requires y in store
  {
    Distinct(store[y].children) && forall c :: c in store[y].children <==> c in pm && pm[c] == y
  }

  ghost function ParentsIn(parents: map<Id, Id>, t: set<Id>): map<Id, Id> {
    map c | c in parents && c in t :: parents[c]
  }

  /** Cutting out a subtree keeps both parts in order. */
  lemma CutKeeps(s: Shape, rank: Id -> nat, x: Id, t: set<Id>)
    requires Coherent(s, rank) && x in s.parents && IsSub(s, x, t)
    ensures ParentOk(s, rank, x)
    ensures Coherent(Cut(s, x, t), rank)
    ensures LocalTree(Cut(s, x, t).store, rank, t, x, ParentsIn(s.parents, t - {x}))
  {
    hide Below, Distinct, Without, Listed, ListOk, Coherent, IsSub, LocalTree, ParentOk;
    ParentAt(s, rank, x);
    CutBasics(s, rank, x, t);
    var s' := Cut(s, x, t);
    forall y | y in s'.store ensures ListOk(s'.store, rank, y) { CutGround(s, rank, x, t, y); }
    forall q | Owner(s', q) ensures Listed(s', q) { CutListed(s, rank, x, t, q); }
    forall c | c in s'.parents ensures ParentOk(s', rank, c) { CutParent(s, rank, x, t, c); }
    CoherentFrom(s', rank);
    CutLocal(s, rank, x, t);
  }

  lemma CutBasics(s: Shape, rank: Id -> nat, x: Id, t: set<Id>)
    requires Coherent(s, rank) && x in s.parents && IsSub(s, x, t)
    ensures Owner(s, s.parents[x]) && (forall c :: c in s.parents ==> c in s.store) && NO_LAYER !in t
    ensures var s' := Cut(s, x, t);
            && NO_LAYER !in s'.store && s'.parents.Keys == s.parents.Keys - t
               && (forall c :: c in s'.parents ==> c in s'.store)
            && forall c :: c in s'.store && s'.store[c].kind == Raster ==> s'.store[c].children == []
  {
    hide Distinct, Listed, ListOk, Below;
    assert ParentOk(s, rank, x);
  }

  lemma CutGround(s: Shape, rank: Id -> nat, x: Id, t: set<Id>, y: Id)
    requires Coherent(s, rank) && x in s.parents && Owner(s, s.parents[x]) && y in Cut(s, x, t).store
    ensures ListOk(Cut(s, x, t).store, rank, y)
  {
    hide Distinct, Listed, ParentOk, Coherent;
    AllStored(s, rank);
    RootNotStored(s, rank);
    GroundAt(s, rank, y);
    if y == s.parents[x] { DistinctWithout(Kids(s, y), x); }
  }

  lemma RootNotStored(s: Shape, rank: Id -> nat)
    requires Coherent(s, rank)
    ensures NO_LAYER !in s.store
  {
  }

  lemma InSub(s: Shape, x: Id, t: set<Id>)
    requires IsSub(s, x, t)
    ensures x in t && (forall y :: y in s.parents && s.parents[y] in t ==> y in t)
            && (forall y :: y in t && y != x ==> y in s.parents && s.parents[y] in t)
  {
  }

  lemma CutListed(s: Shape, rank: Id -> nat, x: Id, t: set<Id>, q: Id)
    requires Coherent(s, rank) && x in s.parents && IsSub(s, x, t) && Owner(s, s.parents[x])
    requires Owner(s, q) && q !in t
    ensures Listed(Cut(s, x, t), q)
  {
    hide Distinct, Coherent, IsSub;
    InSub(s, x, t);
    ParentAt(s, rank, x);
    ListAt(s, rank, q);
    if q == s.parents[x] { DistinctWithout(Kids(s, q), x); }
  }

  lemma CutParent(s: Shape, rank: Id -> nat, x: Id, t: set<Id>, c: Id)
    requires Coherent(s, rank) && x in s.parents && IsSub(s, x, t) && Owner(s, s.parents[x])
    requires c in s.parents && c !in t
    ensures ParentOk(Cut(s, x, t), rank, c)
  {
    hide Listed;
    assert ParentOk(s, rank, c);
  }

  lemma CutLocal(s: Shape, rank: Id -> nat, x: Id, t: set<Id>)
    requires Coherent(s, rank) && x in s.parents && IsSub(s, x, t) && Owner(s, s.parents[x])
    ensures LocalTree(Cut(s, x, t).store, rank, t, x, ParentsIn(s.parents, t - {x}))
  {
    hide Distinct, Below, Without, LocalList, Coherent, IsSub;
    AllStored(s, rank);
    RootNotStored(s, rank);
    TopOfSub(s, rank, x, t);
    var s', pm := Cut(s, x, t), ParentsIn(s.parents, t - {x});
    forall y | y in t ensures y in s'.store && LocalList(s'.store, y, pm) {
      CutLocalList(s, rank, x, t, y);
    }
    SubIn(s, x, t);
    forall c | c in pm ensures pm[c] in t && s'.store[pm[c]].kind == Group && rank(c) < rank(pm[c]) {
      CutLocalParent(s, rank, x, t, c);
    }
    assert pm.Keys == t - {x};
  }

  lemma SubIn(s: Shape, x: Id, t: set<Id>)
    requires IsSub(s, x, t)
    ensures x in t && t <= s.parents.Keys
  {
  }

  lemma CutLocalParent(s: Shape, rank: Id -> nat, x: Id, t: set<Id>, c: Id)
    requires Coherent(s, rank) && x in s.parents && IsSub(s, x, t) && c in t && c != x
    requires Owner(s, s.parents[x]) && (forall y :: y in s.parents ==> y in s.store)
    ensures c in s.parents && s.parents[c] in t && s.parents[c] in Cut(s, x, t).store
    ensures Cut(s, x, t).store[s.parents[c]].kind == Group && rank(c) < rank(s.parents[c])
  {
    hide Coherent, Without;
    ParentAt(s, rank, c);
    ParentAt(s, rank, s.parents[c]);
  }

  lemma CutLocalList(s: Shape, rank: Id -> nat, x: Id, t: set<Id>, y: Id)
    requires Coherent(s, rank) && x in s.parents && IsSub(s, x, t) && Owner(s, s.parents[x]) && s.parents[x] !in t
             && y in t
    ensures y in Cut(s, x, t).store && LocalList(Cut(s, x, t).store, y, ParentsIn(s.parents, t - {x}))
  {
    hide Distinct, ParentOk;
    assert Listed(s, y);
    assert y != NO_LAYER;
  }

  // ---- putting in ----------------------------------------------------------------------------------

  function InsertAt(list: seq<Id>, i: nat, x: Id): (r: seq<Id>)
    requires i <= |list|
    ensures forall c :: c in r <==> c in list || c == x
  {
    list[..i] + [x] + list[i..]
  }

  lemma DistinctInsert(list: seq<Id>, i: nat, x: Id)
    requires i <= |list| && Distinct(list) && x !in list
    ensures Distinct(InsertAt(list, i, x))
  {
  }

  function Inserted(s: Shape, x: Id, pm: map<Id, Id>, p: Id, i: nat): Shape
    requires Owner(s, p) && (forall c :: c in s.parents ==> c in s.store) && i <= |Kids(s, p)|
  {
    SetKids(s.(parents := s.parents + pm[x := p]), p, InsertAt(Kids(s, p), i, x))
  }

  /** Everything outside `t` is lifted above its members. */
  ghost function Lifted(rank: Id -> nat, t: set<Id>, lift: nat): Id -> nat {
    (a: Id) => if a in t then rank(a) else rank(a) + lift
  }

  /** Hanging a detached subtree below a group keeps the forest in order. */
  lemma InsertKeeps(s: Shape, rank: Id -> nat, t: set<Id>, x: Id, pm: map<Id, Id>, p: Id, i: nat)
    requires Coherent(s, rank) && LocalTree(s.store, rank, t, x, pm) && t !! s.parents.Keys
    requires Owner(s, p) && (p != NO_LAYER ==> s.store[p].kind == Group) && i <= |Kids(s, p)|
    ensures Coherent(Inserted(s, x, pm, p, i), Lifted(rank, t, rank(x) + 1))
  {
    hide Below, InsertAt, Distinct, Listed, Lifted, ParentOk, LocalTree, ListOk;
    var s' := Inserted(s, x, pm, p, i);
    var rank' := Lifted(rank, t, rank(x) + 1);
    forall q | Owner(s', q) ensures Listed(s', q) { InsertListed(s, rank, t, x, pm, p, i, q); }
    forall c | c in s'.parents ensures ParentOk(s', rank', c) { InsertParent(s, rank, t, x, pm, p, i, c); }
    assert forall c :: c in s'.parents ==> c in s'.store by { InStore(s, rank, t, x, pm, p, i); }
    forall y | y in s'.store ensures ListOk(s'.store, rank', y) { InsertGround(s, rank, t, x, pm, p, i, y); }
  }

  lemma InsertGround(s: Shape, rank: Id -> nat, t: set<Id>, x: Id, pm: map<Id, Id>, p: Id, i: nat, y: Id)
    requires Coherent(s, rank) && LocalTree(s.store, rank, t, x, pm) && t !! s.parents.Keys && Owner(s, p)
             && i <= |Kids(s, p)|
    requires (forall c :: c in s.parents ==> c in s.store) && y in Inserted(s, x, pm, p, i).store
    ensures ListOk(Inserted(s, x, pm, p, i).store, Lifted(rank, t, rank(x) + 1), y)
  {
    hide Distinct, Listed, ParentOk, Coherent, InsertAt;
    RootNotStored(s, rank);
    GroundAt(s, rank, y);
    LocalTops(s.store, rank, t, x, pm);
    if y == p {
      ListAt(s, rank, p);
      DistinctInsert(Kids(s, p), i, x);
    }
  }

  /** What a local tree names stays inside, and its top is highest. */
  lemma LocalTops(store: map<Id, Layer>, rank: Id -> nat, t: set<Id>, x: Id, pm: map<Id, Id>)
    requires LocalTree(store, rank, t, x, pm)
    ensures x in t && x in store && t <= store.Keys
    ensures forall y, c :: y in t && c in store[y].children ==> c in t && c != x
  {
    hide Distinct;
    forall y, c | y in t && c in store[y].children ensures c in t && c != x {
      assert LocalList(store, y, pm) && c in pm.Keys;
    }
  }

  lemma InStore(s: Shape, rank: Id -> nat, t: set<Id>, x: Id, pm: map<Id, Id>, p: Id, i: nat)
    requires Coherent(s, rank) && LocalTree(s.store, rank, t, x, pm) && Owner(s, p) && i <= |Kids(s, p)|
    ensures forall c :: c in Inserted(s, x, pm, p, i).parents ==> c in Inserted(s, x, pm, p, i).store
  {
    hide Listed, ParentOk, LocalList, InsertAt;
  }

  lemma InsertListed(s: Shape, rank: Id -> nat, t: set<Id>, x: Id, pm: map<Id, Id>, p: Id, i: nat, q: Id)
    requires Coherent(s, rank) && LocalTree(s.store, rank, t, x, pm) && t !! s.parents.Keys
    requires Owner(s, p) && i <= |Kids(s, p)| && Owner(Inserted(s, x, pm, p, i), q)
    ensures Listed(Inserted(s, x, pm, p, i), q)
  {
    hide Listed, ParentOk, InsertAt, LocalList;
    ListAt(s, rank, p);
    assert forall c :: c in pm[x := p] <==> c in t;
    if q == p {
      ListedAtOwner(s, t, x, pm, p, i);
    } else if q in t {
      NoParentIn(s, rank, t, q);
      ListedInside(s, x, pm, p, i, q);
    } else {
      ListAt(s, rank, q);
      ListedElsewhere(s, t, x, pm, p, i, q);
    }
  }

  lemma ListedAtOwner(s: Shape, t: set<Id>, x: Id, pm: map<Id, Id>, p: Id, i: nat)
    requires (forall c :: c in s.parents ==> c in s.store) && Owner(s, p) && i <= |Kids(s, p)| && Listed(s, p)
    requires p !in t && x !in s.parents && (forall c :: c in pm ==> pm[c] in t && c !in s.parents)
    ensures Listed(Inserted(s, x, pm, p, i), p)
  {
    hide Distinct, InsertAt;
    DistinctInsert(Kids(s, p), i, x);
  }

  lemma ListedInside(s: Shape, x: Id, pm: map<Id, Id>, p: Id, i: nat, q: Id)
    requires (forall c :: c in s.parents ==> c in s.store && s.parents[c] != q) && Owner(s, p) && i <= |Kids(s, p)|
    requires p != q && q != NO_LAYER && q in s.store && LocalList(s.store, q, pm) && x !in pm
    ensures Listed(Inserted(s, x, pm, p, i), q)
  {
    hide Distinct, InsertAt;
  }

  lemma ListedElsewhere(s: Shape, t: set<Id>, x: Id, pm: map<Id, Id>, p: Id, i: nat, q: Id)
    requires (forall c :: c in s.parents ==> c in s.store) && Owner(s, p) && i <= |Kids(s, p)| && Listed(s, q)
    requires p != q && q !in t && x !in s.parents && (forall c :: c in pm ==> pm[c] in t && c !in s.parents)
    ensures Listed(Inserted(s, x, pm, p, i), q)
  {
    hide Distinct, InsertAt;
  }

  lemma NoParentIn(s: Shape, rank: Id -> nat, t: set<Id>, q: Id)
    requires Coherent(s, rank) && t !! s.parents.Keys && q in t && q != NO_LAYER
    ensures forall c :: c in s.parents ==> s.parents[c] != q
  {
    forall c | c in s.parents ensures s.parents[c] != q { assert ParentOk(s, rank, c); }
  }

  lemma InsertParent(s: Shape, rank: Id -> nat, t: set<Id>, x: Id, pm: map<Id, Id>, p: Id, i: nat, c: Id)
    requires Coherent(s, rank) && LocalTree(s.store, rank, t, x, pm) && t !! s.parents.Keys
    requires Owner(s, p) && (p != NO_LAYER ==> s.store[p].kind == Group) && i <= |Kids(s, p)|
             && c in Inserted(s, x, pm, p, i).parents
    ensures ParentOk(Inserted(s, x, pm, p, i), Lifted(rank, t, rank(x) + 1), c)
  {
    hide Below, InsertAt, Distinct, LocalList, Coherent;
    if p != NO_LAYER { ParentAt(s, rank, p); }
    if c in s.parents { ParentAt(s, rank, c); }
  }

  // ---- what a layer's lists name -----------------------------------------------------------------

  predicate StepDown(store: map<Id, Layer>, path: seq<Id>, i: nat)
    requires i + 1 < |path|
  {
    path[i] in store && path[i + 1] in store[path[i]].children
  }

  ghost predicate IsDownPath(store: map<Id, Layer>, path: seq<Id>) {
    |path| > 0 && forall i :: 0 <= i < |path| - 1 ==> StepDown(store, path, i)
  }

  /** Walking down the child lists from `x` leads to `y`. */
  ghost predicate Names(store: map<Id, Layer>, x: Id, y: Id) {
    exists path :: IsDownPath(store, path) && path[0] == x && path[|path| - 1] == y
  }

  /** `x` and everything its child lists lead to, attached or not. */
  ghost function Named(store: map<Id, Layer>, x: Id): set<Id> {
    set y | y in store && Names(store, x, y)
  }

  ghost predicate HasOwner(store: map<Id, Layer>, t: set<Id>, y: Id) {
    exists z :: z in t && z in store && y in store[z].children
  }

  /** `t` is closed under child lists, and everything but `x` is on a list of it. */
  ghost predicate IsNamed(store: map<Id, Layer>, x: Id, t: set<Id>) {
    && x in t && t <= store.Keys
    && (forall y, c :: y in t && c in store[y].children ==> c in t)
    && (forall y :: y in t && y != x ==> HasOwner(store, t, y))
  }

  lemma NamesSelf(store: map<Id, Layer>, x: Id)
    ensures Names(store, x, x)
  {
    assert IsDownPath(store, [x]);
  }

  lemma NamesChild(store: map<Id, Layer>, x: Id, y: Id, c: Id)
    requires Names(store, x, y) && y in store && c in store[y].children
    ensures Names(store, x, c)
  {
    var path :| IsDownPath(store, path) && path[0] == x && path[|path| - 1] == y;
    var longer := path + [c];
    forall i | 0 <= i < |path| ensures StepDown(store, longer, i) {
      if i < |path| - 1 { assert StepDown(store, path, i); }
    }
    assert IsDownPath(store, longer);
  }

  lemma NamesOwner(store: map<Id, Layer>, x: Id, y: Id)
    requires Names(store, x, y) && y != x
    ensures exists z :: z in store && Names(store, x, z) && y in store[z].children
  {
    var path :| IsDownPath(store, path) && path[0] == x && path[|path| - 1] == y;
    var shorter := path[..|path| - 1];
    assert StepDown(store, path, |path| - 2);
    forall i | 0 <= i < |shorter| - 1 ensures StepDown(store, shorter, i) { assert StepDown(store, path, i); }
    assert IsDownPath(store, shorter);
  }

  /** From `x` one gets further only through its children. */
  lemma NamesFirst(store: map<Id, Layer>, x: Id, y: Id)
    requires x in store
    ensures Names(store, x, y) <==> y == x || exists c :: c in store[x].children && Names(store, c, y)
  {
    if Names(store, x, y) && y != x {
      var path :| IsDownPath(store, path) && path[0] == x && path[|path| - 1] == y;
      assert StepDown(store, path, 0);
      forall i | 0 <= i < |path| - 2 ensures StepDown(store, path[1..], i) { assert StepDown(store, path, i + 1); }
      assert IsDownPath(store, path[1..]);
    }
    if y == x { NamesSelf(store, x); }
    if c :| c in store[x].children && Names(store, c, y) {
      var path :| IsDownPath(store, path) && path[0] == c && path[|path| - 1] == y;
      forall i | 0 <= i < |path| ensures StepDown(store, [x] + path, i) {
        if i > 0 { assert StepDown(store, path, i - 1); }
      }
      assert IsDownPath(store, [x] + path);
    }
  }

  lemma NamedIs(store: map<Id, Layer>, rank: Id -> nat, x: Id)
    requires Grounded(store, rank) && x in store
    ensures IsNamed(store, x, Named(store, x))
  {
    hide Names, Distinct;
    var t := Named(store, x);
    NamesSelf(store, x);
    forall y, c | y in t && c in store[y].children ensures c in t {
      assert ListOk(store, rank, y);
      NamesChild(store, x, y, c);
    }
    forall y | y in t && y != x ensures HasOwner(store, t, y) {
      NamesOwner(store, x, y);
    }
  }

  lemma NamedWithin(store: map<Id, Layer>, rank: Id -> nat, x: Id, t: set<Id>, u: set<Id>)
    requires Grounded(store, rank) && IsNamed(store, x, t) && IsNamed(store, x, u)
    ensures t <= u
  {
    hide Distinct;
    if !(t <= u) {
      var y :| y in t && y !in u;
      assert y in t - u;
      var top := Highest(t - u, rank);
      OwnerOutside(store, rank, x, t, u, top);
    }
  }

  lemma OwnerOutside(store: map<Id, Layer>, rank: Id -> nat, x: Id, t: set<Id>, u: set<Id>, y: Id)
    requires Grounded(store, rank) && IsNamed(store, x, t) && IsNamed(store, x, u) && y in t - u
    ensures exists z :: z in t - u && rank(y) < rank(z)
  {
    hide Distinct;
    assert HasOwner(store, t, y);
    var z :| z in t && z in store && y in store[z].children;
    assert ListOk(store, rank, z);
  }

  /** There is only one such set. */
  lemma NamedOnly(store: map<Id, Layer>, rank: Id -> nat, x: Id, t: set<Id>)
    requires Grounded(store, rank) && IsNamed(store, x, t)
    ensures t == Named(store, x)
  {
    NamedIs(store, rank, x);
    NamedWithin(store, rank, x, t, Named(store, x));
    NamedWithin(store, rank, x, Named(store, x), t);
  }

  lemma TopOfNamed(store: map<Id, Layer>, rank: Id -> nat, x: Id, y: Id)
    requires Grounded(store, rank) && x in store && y in Named(store, x)
    ensures rank(y) <= rank(x)
  {
    hide Named, Distinct;
    var t := Named(store, x);
    NamedIs(store, rank, x);
    var top := Highest(t, rank);
    OwnerAbove(store, rank, x, t, top);
  }

  lemma OwnerAbove(store: map<Id, Layer>, rank: Id -> nat, x: Id, t: set<Id>, y: Id)
    requires Grounded(store, rank) && IsNamed(store, x, t) && y in t
    ensures y == x || exists z :: z in t && rank(y) < rank(z)
  {
    hide Distinct;
    if y != x {
      assert HasOwner(store, t, y);
      var z :| z in t && z in store && y in store[z].children;
      assert ListOk(store, rank, z);
    }
  }

  /** No layer is on two lists of `t`. */
  ghost predicate Single(store: map<Id, Layer>, t: set<Id>) {
    forall z, w, y ::
      z in t && w in t && z in store && w in store && y in store[z].children && y in store[w].children ==> z == w
  }

  /** What `x` names is a tree of its own, with nothing attached elsewhere in it. */
  ghost predicate Whole(s: Shape, x: Id) {
    Named(s.store, x) !! s.parents.Keys && Single(s.store, Named(s.store, x))
  }

  ghost function OwnerIn(store: map<Id, Layer>, t: set<Id>, y: Id): Id {
    if HasOwner(store, t, y) then
      var z :| z in t && z in store && y in store[z].children;
      z
    else NO_LAYER
  }

  /** The owners inside `t`. */
  ghost function OwnersIn(store: map<Id, Layer>, t: set<Id>, x: Id): map<Id, Id> {
    map y | y in t && y != x :: OwnerIn(store, t, y)
  }

  lemma WholeLocal(s: Shape, rank: Id -> nat, x: Id)
    requires Coherent(s, rank) && x in s.store && Whole(s, x)
    ensures LocalTree(s.store, rank, Named(s.store, x), x, OwnersIn(s.store, Named(s.store, x), x))
  {
    hide Named, Coherent, ListOk, Distinct, OwnersIn, IsNamed;
    var t := Named(s.store, x);
    GroundAt(s, rank, x);
    RootNotStored(s, rank);
    NamedIs(s.store, rank, x);
    OwnersAre(s, rank, x, t);
    forall y | y in t ensures LocalList(s.store, y, OwnersIn(s.store, t, x)) { OwnersList(s, rank, x, t, y); }
  }

  lemma ChildRank(s: Shape, rank: Id -> nat, z: Id, c: Id)
    requires Coherent(s, rank) && z in s.store && c in s.store[z].children
    ensures s.store[z].kind == Group && rank(c) < rank(z)
  {
    hide Distinct;
    GroundAt(s, rank, z);
  }

  lemma OwnerAt(s: Shape, rank: Id -> nat, x: Id, t: set<Id>, c: Id)
    requires Coherent(s, rank) && IsNamed(s.store, x, t) && c in t && c != x
    ensures var z := OwnerIn(s.store, t, c);
            z in t && z in s.store && c in s.store[z].children && s.store[z].kind == Group && rank(c) < rank(z)
  {
    hide Coherent, Distinct, Grounded;
    assert HasOwner(s.store, t, c);
    ChildRank(s, rank, OwnerIn(s.store, t, c), c);
  }

  lemma OwnersAre(s: Shape, rank: Id -> nat, x: Id, t: set<Id>)
    requires Coherent(s, rank) && IsNamed(s.store, x, t)
    ensures x in t && t <= s.store.Keys
    ensures var pm := OwnersIn(s.store, t, x);
            && pm.Keys == t - {x}
            && forall c :: c in pm ==>
               pm[c] in t && c in s.store[pm[c]].children && s.store[pm[c]].kind == Group && rank(c) < rank(pm[c])
  {
    hide Coherent, OwnerIn, HasOwner;
    var pm := OwnersIn(s.store, t, x);
    forall c | c in pm
      ensures pm[c] in t && c in s.store[pm[c]].children && s.store[pm[c]].kind == Group && rank(c) < rank(pm[c])
    {
      OwnerAt(s, rank, x, t, c);
    }
  }

  lemma OwnersList(s: Shape, rank: Id -> nat, x: Id, t: set<Id>, y: Id)
    requires Coherent(s, rank) && IsNamed(s.store, x, t) && Single(s.store, t) && t == Named(s.store, x) && y in t
    ensures LocalList(s.store, y, OwnersIn(s.store, t, x))
  {
    hide Distinct, Named, Coherent;
    OwnersAre(s, rank, x, t);
    GroundAt(s, rank, y);
    TopOfNamed(s.store, rank, x, y);
    var pm := OwnersIn(s.store, t, x);
    forall c | c in s.store[y].children ensures c in pm && pm[c] == y {
      assert c in t && c != x;
    }
  }

  /** A local tree is what its top names. */
  lemma LocalNamed(store: map<Id, Layer>, rank: Id -> nat, t: set<Id>, x: Id, pm: map<Id, Id>)
    requires Grounded(store, rank) && LocalTree(store, rank, t, x, pm)
    ensures Named(store, x) == t && Single(store, t) && forall y :: y in pm ==> pm[y] in t && y in store[pm[y]].children
  {
    hide Grounded, Distinct;
    LocalTops(store, rank, t, x, pm);
    forall y | y in t && y != x ensures HasOwner(store, t, y) {
      assert y in pm.Keys;
      assert LocalList(store, pm[y], pm);
    }
    NamedOnly(store, rank, x, t);
    forall z, w, y | z in t && w in t && y in store[z].children && y in store[w].children ensures z == w {
      assert LocalList(store, z, pm) && LocalList(store, w, pm);
    }
    forall y | y in pm ensures pm[y] in t && y in store[pm[y]].children { assert LocalList(store, pm[y], pm); }
  }

  // ---- hanging up whatever a layer names -----------------------------------------------------------

  /** `after` is `before` with everything in `t` enrolled: `x` below `p`, the rest below an owner in `t`,
      whichever was met last. */
  ghost predicate Enrolled(store: map<Id, Layer>, x: Id, p: Id, t: set<Id>, before: map<Id, Id>, after: map<Id, Id>) {
    && after.Keys == before.Keys + t && x in t && after[x] == p
    && (forall y :: y in before && y !in t ==> after[y] == before[y])
    && (forall y :: y in t && y != x ==> after[y] in t && after[y] in store && y in store[after[y]].children)
  }

  /** `s'` is `s` with `x` on the list of `p` and everything `x` names enrolled. */
  ghost predicate Hung(s: Shape, x: Id, p: Id, i: nat, s': Shape)
    requires Owner(s, p) && (forall c :: c in s.parents ==> c in s.store) && i <= |Kids(s, p)|
  {
    && s'.(parents := s.parents) == SetKids(s, p, InsertAt(Kids(s, p), i, x))
    && Enrolled(s.store, x, p, Named(s.store, x), s.parents, s'.parents)
  }

  /** A tree of its own is hung up as it is. */
  lemma HungWhole(s: Shape, rank: Id -> nat, t: set<Id>, x: Id, pm: map<Id, Id>, p: Id, i: nat, s': Shape)
    requires Coherent(s, rank) && LocalTree(s.store, rank, t, x, pm) && t !! s.parents.Keys && Owner(s, p)
             && i <= |Kids(s, p)|
    requires (forall c :: c in s.parents ==> c in s.store) && Hung(s, x, p, i, s')
    ensures Whole(s, x) && Named(s.store, x) == t && s' == Inserted(s, x, pm, p, i)
  {
    hide Coherent, InsertAt, Named, LocalTree, Single, Enrolled;
    LocalTops(s.store, rank, t, x, pm);
    GroundAt(s, rank, x);
    LocalNamed(s.store, rank, t, x, pm);
    EnrolledOwners(s.store, rank, t, x, pm, p, s.parents, s'.parents);
  }

  lemma EnrolledOwners(store: map<Id, Layer>, rank: Id -> nat, t: set<Id>, x: Id, pm: map<Id, Id>, p: Id,
          before: map<Id, Id>, after: map<Id, Id>)
    requires LocalTree(store, rank, t, x, pm) && t !! before.Keys && Enrolled(store, x, p, t, before, after)
    ensures after == before + pm[x := p]
  {
    hide Distinct;
    var all := before + pm[x := p];
    assert all.Keys == after.Keys;
    forall y | y in all ensures after[y] == all[y] {
      if y in t && y != x { assert LocalList(store, after[y], pm); }
    }
  }

  /** How often `y` is on the list of `p`. */
  ghost function On(s: Shape, p: Id, y: Id): (n: nat)
    ensures n > 0 <==> y in Kids(s, p)
  {
    multiset(Kids(s, p))[y]
  }

  /** A layer that two lists hold, or one list twice. */
  ghost predicate Doubled(s: Shape, y: Id) {
    || (exists p :: Owner(s, p) && On(s, p, y) >= 2)
    || (exists p, q :: p != q && Owner(s, p) && Owner(s, q) && On(s, p, y) >= 1 && On(s, q, y) >= 1)
  }

  /** No forest has one. */
  lemma DoubledBreaks(s: Shape, rank: Id -> nat, y: Id)
    requires Doubled(s, y)
    ensures !Coherent(s, rank)
  {
    hide Coherent, Doubled;
    if Coherent(s, rank) { NoneDoubled(s, rank, y); }
  }

  lemma NoneDoubled(s: Shape, rank: Id -> nat, y: Id)
    requires Coherent(s, rank)
    ensures !Doubled(s, y)
  {
    hide Coherent, Distinct;
    forall p | Owner(s, p) ensures On(s, p, y) <= 1 && (On(s, p, y) >= 1 ==> y in s.parents && s.parents[y] == p) {
      ListAt(s, rank, p);
      AtMostOnce(Kids(s, p), y);
    }
  }

  lemma {:induction false} AtMostOnce(list: seq<Id>, y: Id)
    requires Distinct(list)
    ensures multiset(list)[y] <= 1
  {
    var n := |list| - 1;
    if n >= 0 {
      assert list == list[..n] + [list[n]];
      AtMostOnce(list[..n], y);
      assert y in multiset(list[..n]) <==> y in list[..n];
    }
  }

  /** Hanging up a layer that names something attached, or something twice, doubles a layer. */
  lemma HungBreaks(s: Shape, rank: Id -> nat, x: Id, p: Id, i: nat, s': Shape) returns (y: Id)
    requires Coherent(s, rank) && x in s.store && x !in s.parents && !Whole(s, x) && Owner(s, p) && i <= |Kids(s, p)|
    requires (forall c :: c in s.parents ==> c in s.store) && Hung(s, x, p, i, s')
    ensures Doubled(s', y)
  {
    if Named(s.store, x) !! s.parents.Keys {
      y := NamedTwice(s, rank, x, p, i, s');
    } else {
      y := NamedAttached(s, rank, x, p, i, s');
    }
  }

  lemma NamedAttached(s: Shape, rank: Id -> nat, x: Id, p: Id, i: nat, s': Shape) returns (y: Id)
    requires Coherent(s, rank) && x in s.store && x !in s.parents && Owner(s, p) && i <= |Kids(s, p)|
    requires (forall c :: c in s.parents ==> c in s.store) && Hung(s, x, p, i, s')
             && !(Named(s.store, x) !! s.parents.Keys)
    ensures Doubled(s', y)
  {
    hide Coherent, Named, Distinct, InsertAt, IsNamed, Hung;
    var t := Named(s.store, x);
    GroundAt(s, rank, x);
    NamedIs(s.store, rank, x);
    var both :| both in t && both in s.parents;
    assert both in t * s.parents.Keys;
    y := Highest(t * s.parents.Keys, rank);
    var z := AttachedNamed(s, rank, x, t, y);
    ParentAt(s, rank, y);
    ListAt(s, rank, s.parents[y]);
    StillListed(s, rank, x, p, i, s', z, y);
    StillListed(s, rank, x, p, i, s', s.parents[y], y);
  }

  lemma AttachedNamed(s: Shape, rank: Id -> nat, x: Id, t: set<Id>, y: Id) returns (z: Id)
    requires Coherent(s, rank) && IsNamed(s.store, x, t) && x !in s.parents && y in t && y in s.parents
    requires forall a :: a in t && a in s.parents ==> rank(a) <= rank(y)
    ensures z in t && z in s.store && y in s.store[z].children && z !in s.parents && z != NO_LAYER
  {
    hide Distinct, Listed, ParentOk;
    assert HasOwner(s.store, t, y);
    z :| z in t && z in s.store && y in s.store[z].children;
    GroundAt(s, rank, z);
  }

  lemma StillListed(s: Shape, rank: Id -> nat, x: Id, p: Id, i: nat, s': Shape, q: Id, y: Id)
    requires Coherent(s, rank) && Owner(s, p) && i <= |Kids(s, p)| && (forall c :: c in s.parents ==> c in s.store)
             && Hung(s, x, p, i, s')
    requires (Owner(s, q) || q in Named(s.store, x)) && y in Kids(s, q)
    ensures Owner(s', q) && On(s', q, y) >= 1
  {
    hide Distinct, Coherent, Named;
  }

  lemma NamedTwice(s: Shape, rank: Id -> nat, x: Id, p: Id, i: nat, s': Shape) returns (y: Id)
    requires Coherent(s, rank) && x in s.store && Owner(s, p) && i <= |Kids(s, p)|
             && (forall c :: c in s.parents ==> c in s.store) && Hung(s, x, p, i, s')
    requires Named(s.store, x) !! s.parents.Keys && !Whole(s, x)
    ensures Doubled(s', y)
  {
    hide Coherent, Named, Distinct, InsertAt, Hung;
    var t := Named(s.store, x);
    RootNotStored(s, rank);
    var z, w;
    z, w, y :| z in t && w in t && z in s.store && w in s.store && y in s.store[z].children && y in s.store[w].children
      && z != w;
    StillListed(s, rank, x, p, i, s', z, y);
    StillListed(s, rank, x, p, i, s', w, y);
  }
}
