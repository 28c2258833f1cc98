/**
 The canvas document: a shape map with a z-order, grouping and ungrouping, and two bounded stacks
 of snapshots.

 Each operation is a function on `Snapshot` or `Doc`, about which the laws are proved for single
 steps and for whole runs; the class at the end is the imperative code.
 */
module CanvasDocument {
  import opened Basics

  type ShapeId = nat

  /** Everything about a leaf but its identity is its payload; a group's id is drawn when it is made. */
  datatype Shape = Leaf(id: ShapeId, payload: int) | Group(id: ShapeId, children: seq<Shape>)

  datatype Snapshot = Snapshot(shapes: map<ShapeId, Shape>, zOrder: seq<ShapeId>)

  // ---------------------------------------------------------------- sequences of ids

  function Elems(ids: seq<ShapeId>): set<ShapeId> { set x | x in ids }

  predicate NoDup(ids: seq<ShapeId>) {
    forall i, j :: 0 <= i < j < |ids| ==> ids[i] != ids[j]
  }

  /** `retain` of what is not in `drop`. */
  function Without(z: seq<ShapeId>, drop: set<ShapeId>): seq<ShapeId> {
    if z == [] then []
    else (if z[0] in drop then [] else [z[0]]) + Without(z[1..], drop)
  }

  /** What is in `keep`, in z-order. */
  function Only(z: seq<ShapeId>, keep: set<ShapeId>): seq<ShapeId> {
    if z == [] then []
    else (if z[0] in keep then [z[0]] else []) + Only(z[1..], keep)
  }

  function Insert(z: seq<ShapeId>, pos: nat, id: ShapeId): seq<ShapeId>
    requires pos <= |z|
  {
    z[..pos] + [id] + z[pos..]
  }

  function Position(z: seq<ShapeId>, id: ShapeId): (pos: Option<nat>)
    ensures pos.None? <==> id !in z
    ensures pos.Some? ==> pos.value < |z| && z[pos.value] == id && id !in z[..pos.value]
  {
    if z == [] then None
    else if z[0] == id then Some(0)
    else
      var rest := Position(z[1..], id);
      if rest.None? then None
      else
        assert z[..rest.value + 1] == [z[0]] + z[1..][..rest.value];
        Some(rest.value + 1)
  }

  lemma WithoutElems(z: seq<ShapeId>, drop: set<ShapeId>)
    ensures forall x :: x in Without(z, drop) <==> x in z && x !in drop
    ensures NoDup(z) ==> NoDup(Without(z, drop))
    ensures |Without(z, drop)| <= |z|
  {
    if z != [] {
      WithoutElems(z[1..], drop);
    }
  }

  lemma OnlyElems(z: seq<ShapeId>, keep: set<ShapeId>)
    ensures forall x :: x in Only(z, keep) <==> x in z && x in keep
    ensures NoDup(z) ==> NoDup(Only(z, keep))
  {
    if z != [] {
      OnlyElems(z[1..], keep);
    }
  }

  lemma WithoutConcat(a: seq<ShapeId>, b: seq<ShapeId>, drop: set<ShapeId>)
    ensures Without(a + b, drop) == Without(a, drop) + Without(b, drop)
    ensures Only(a + b, drop) == Only(a, drop) + Only(b, drop)
  {
    if a == [] {
      assert a + b == b;
    } else {
      WithoutCons(a, b, drop);
      WithoutConcat(a[1..], b, drop);
      Associate(if a[0] in drop then [] else [a[0]], Without(a[1..], drop), Without(b, drop));
      Associate(if a[0] in drop then [a[0]] else [], Only(a[1..], drop), Only(b, drop));
    }
  }

  lemma WithoutCons(a: seq<ShapeId>, b: seq<ShapeId>, drop: set<ShapeId>)
    requires a != []
    ensures Without(a + b, drop) == (if a[0] in drop then [] else [a[0]]) + Without(a[1..] + b, drop)
    ensures Only(a + b, drop) == (if a[0] in drop then [a[0]] else []) + Only(a[1..] + b, drop)
  {
    assert (a + b)[1..] == a[1..] + b;
  }

  lemma FilterThree(a: seq<ShapeId>, b: seq<ShapeId>, c: seq<ShapeId>, m: set<ShapeId>)
    ensures Without(a + b + c, m) == Without(a, m) + Without(b, m) + Without(c, m)
    ensures Only(a + b + c, m) == Only(a, m) + Only(b, m) + Only(c, m)
  {
    WithoutConcat(a + b, c, m);
    WithoutConcat(a, b, m);
  }

  lemma WithoutWithout(z: seq<ShapeId>, a: set<ShapeId>, b: set<ShapeId>)
    ensures Without(Without(z, a), b) == Without(z, a + b)
  {
    if z != [] {
      WithoutWithout(z[1..], a, b);
      var head := if z[0] in a then [] else [z[0]];
      WithoutConcat(head, Without(z[1..], a), b);
    }
  }

  /** Dropping only what is absent drops nothing; keeping only what is present keeps everything. */
  lemma WithoutAbsent(z: seq<ShapeId>, drop: set<ShapeId>)
    requires forall x :: x in z ==> x !in drop
    ensures Without(z, drop) == z && Only(z, drop) == []
  {
  }

  lemma OnlyPresent(z: seq<ShapeId>, keep: set<ShapeId>)
    requires forall x :: x in z ==> x in keep
    ensures Only(z, keep) == z && Without(z, keep) == []
  {
  }

  lemma WithoutSame(z: seq<ShapeId>, a: set<ShapeId>, b: set<ShapeId>)
    requires forall x :: x in z ==> (x in a <==> x in b)
    ensures Without(z, a) == Without(z, b) && Only(z, a) == Only(z, b)
  {
    if z != [] {
      WithoutSame(z[1..], a, b);
    }
  }

  lemma WithoutCount(z: seq<ShapeId>, drop: set<ShapeId>)
    requires NoDup(z) && drop <= Elems(z)
    ensures |Without(z, drop)| + |drop| == |z|
  {
    if z != [] {
      var rest := drop - {z[0]};
      assert forall x :: x in rest ==> x in z[1..];
      WithoutCount(z[1..], rest);
      WithoutSame(z[1..], drop, rest);
    } else {
      assert drop == {};
    }
  }

  lemma DistinctCount(ids: seq<ShapeId>)
    requires NoDup(ids)
    ensures |Elems(ids)| == |ids|
  {
    if ids != [] {
      assert Elems(ids) == Elems(ids[1..]) + {ids[0]};
      DistinctCount(ids[1..]);
    }
  }

  lemma NoDupConcat(a: seq<ShapeId>, b: seq<ShapeId>)
    ensures NoDup(a + b) <==> NoDup(a) && NoDup(b) && forall x :: x in a ==> x !in b
  {
    var c := a + b;
    assert forall i :: 0 <= i < |a| ==> c[i] == a[i];
    assert forall i :: 0 <= i < |b| ==> c[|a| + i] == b[i];
    if NoDup(c) {
      forall i, j | 0 <= i < j < |a| ensures a[i] != a[j] {
        assert c[i] != c[j];
      }
      forall i, j | 0 <= i < j < |b| ensures b[i] != b[j] {
        assert c[|a| + i] != c[|a| + j];
      }
      forall i, j | 0 <= i < |a| && 0 <= j < |b| ensures a[i] != b[j] {
        assert c[i] != c[|a| + j];
      }
    } else if NoDup(a) && NoDup(b) {
      var i, j :| 0 <= i < j < |c| && c[i] == c[j];
      assert i < |a| <= j;
      assert a[i] == b[j - |a|] && a[i] in a && a[i] in b;
    }
  }

  lemma NoDupInsert(z: seq<ShapeId>, pos: nat, mid: seq<ShapeId>)
    requires NoDup(z) && pos <= |z|
    ensures NoDup(z[..pos] + mid + z[pos..]) <==> NoDup(mid) && forall x :: x in mid ==> x !in z
    ensures forall x :: x in z[..pos] + mid + z[pos..] <==> x in z || x in mid
  {
    assert z == z[..pos] + z[pos..];
    NoDupConcat(z[..pos], z[pos..]);
    NoDupConcat(z[..pos], mid);
    NoDupConcat(z[..pos] + mid, z[pos..]);
    assert forall x :: x in z <==> x in z[..pos] || x in z[pos..];
  }

  // ---------------------------------------------------------------- the z-order listing

  /** The z-order lists exactly the shape map's keys, once each, and every shape is under its own id. */
  ghost predicate Listed(s: Snapshot) {
    && NoDup(s.zOrder)
    && (forall id :: id in s.zOrder <==> id in s.shapes)
    && (forall id :: id in s.shapes ==> s.shapes[id].id == id)
  }

  const EMPTY := Snapshot(map[], [])

  function Added(s: Snapshot, shape: Shape): Snapshot {
    Snapshot(s.shapes[shape.id := shape], s.zOrder + [shape.id])
  }

  function Removed(s: Snapshot, id: ShapeId): Snapshot {
    Snapshot(s.shapes - {id}, Without(s.zOrder, {id}))
  }

  function ToFront(s: Snapshot, id: ShapeId): Snapshot {
    s.(zOrder := Without(s.zOrder, {id}) + [id])
  }

  function ToBack(s: Snapshot, id: ShapeId): Snapshot {
    s.(zOrder := [id] + Without(s.zOrder, {id}))
  }

  function Swapped(z: seq<ShapeId>, i: nat, j: nat): seq<ShapeId>
    requires i < |z| && j < |z|
  {
    z[i := z[j]][j := z[i]]
  }

  function Forward(s: Snapshot, id: ShapeId): (Snapshot, bool) {
    var pos := Position(s.zOrder, id);
    if pos.Some? && pos.value + 1 < |s.zOrder| then
      (s.(zOrder := Swapped(s.zOrder, pos.value, pos.value + 1)), true)
    else (s, false)
  }

  function Backward(s: Snapshot, id: ShapeId): (Snapshot, bool) {
    var pos := Position(s.zOrder, id);
    if pos.Some? && pos.value > 0 then
      (s.(zOrder := Swapped(s.zOrder, pos.value, pos.value - 1)), true)
    else (s, false)
  }

  // ---------------------------------------------------------------- grouping

  /** The ids that name shapes of the document. */
  function Members(s: Snapshot, ids: seq<ShapeId>): set<ShapeId> { Elems(ids) * s.shapes.Keys }

  function ShapesOf(s: Snapshot, z: seq<ShapeId>): seq<Shape>
    requires forall x :: x in z ==> x in s.shapes
  {
    seq(|z|, i requires 0 <= i < |z| => s.shapes[z[i]])
  }

  /** The index of the frontmost element in `keep`. */
  function Frontmost(z: seq<ShapeId>, keep: set<ShapeId>): (i: nat)
    requires exists x :: x in z && x in keep
    ensures i < |z| && z[i] in keep && forall j :: i < j < |z| ==> z[j] !in keep
  {
    var n := |z| - 1;
    if z[n] in keep then n
    else
      assert exists x :: x in z[..n] && x in keep by {
        var x :| x in z && x in keep;
        assert x in z[..n];
      }
      Frontmost(z[..n], keep)
  }

  predicate CanGroup(s: Snapshot, ids: seq<ShapeId>) {
    |ids| >= 2 && |Only(s.zOrder, Members(s, ids))| >= 2
  }

  /** The frontmost member's index, adjusted for the ids removed below it, within the remaining order. */
  function GroupPosition(s: Snapshot, ids: seq<ShapeId>): (pos: nat)
    requires CanGroup(s, ids)
    ensures pos <= |Without(s.zOrder, Elems(ids))|
  {
    OnlyElems(s.zOrder, Members(s, ids));
    assert Only(s.zOrder, Members(s, ids))[0] in s.zOrder;
    var front := Frontmost(s.zOrder, Members(s, ids));
    var pos := if front < |ids| - 1 then 0 else front - (|ids| - 1);
    var n := |Without(s.zOrder, Elems(ids))|;
    if pos < n then pos else n
  }

  function Grouped(s: Snapshot, ids: seq<ShapeId>, gid: ShapeId): Snapshot
    requires CanGroup(s, ids)
  {
    OnlyElems(s.zOrder, Members(s, ids));
    Snapshot((s.shapes - Elems(ids))[gid := Group(gid, ShapesOf(s, Only(s.zOrder, Members(s, ids))))],
             Insert(Without(s.zOrder, Elems(ids)), GroupPosition(s, ids), gid))
  }

  function ChildIds(children: seq<Shape>): seq<ShapeId> {
    seq(|children|, i requires 0 <= i < |children| => children[i].id)
  }

  predicate CanUngroup(s: Snapshot, gid: ShapeId) {
    gid in s.shapes && s.shapes[gid].Group? && gid in s.zOrder
  }

  function WithChildren(shapes: map<ShapeId, Shape>, children: seq<Shape>): map<ShapeId, Shape> {
    if children == [] then shapes
    else
      var n := |children| - 1;
      WithChildren(shapes, children[..n])[children[n].id := children[n]]
  }

  function Ungrouped(s: Snapshot, gid: ShapeId): Snapshot
    requires CanUngroup(s, gid)
  {
    var pos := Position(s.zOrder, gid).value;
    var children := s.shapes[gid].children;
    RestAfterPosition(s.zOrder, gid);
    var rest := Without(s.zOrder, {gid});
    Snapshot(WithChildren(s.shapes - {gid}, children), rest[..pos] + ChildIds(children) + rest[pos..])
  }

  lemma {:induction false} DropOne(a: seq<ShapeId>, id: ShapeId, b: seq<ShapeId>)
    requires id !in a
    ensures Without(a + [id] + b, {id}) == a + Without(b, {id})
  {
    var z := a + [id] + b;
    if a == [] {
      assert z[1..] == b;
    } else {
      assert z[1..] == a[1..] + [id] + b && z[0] == a[0];
      DropOne(a[1..], id, b);
    }
  }

  lemma SplitBack(a: seq<ShapeId>, b: seq<ShapeId>)
    ensures (a + b)[..|a|] == a && (a + b)[|a|..] == b
  {
  }

  lemma SplitOne(z: seq<ShapeId>, pos: nat)
    requires pos < |z|
    ensures z == z[..pos] + [z[pos]] + z[pos + 1..]
  {
  }

  lemma RestAfterPosition(z: seq<ShapeId>, id: ShapeId)
    requires id in z
    ensures var pos := Position(z, id).value; var rest := Without(z, {id});
            pos <= |rest| && rest[..pos] == z[..pos] && rest[pos..] == Without(z[pos + 1..], {id})
  {
    var pos := Position(z, id).value;
    SplitOne(z, pos);
    DropOne(z[..pos], id, z[pos + 1..]);
    SplitBack(z[..pos], Without(z[pos + 1..], {id}));
  }

  lemma PositionFits(z: seq<ShapeId>, id: ShapeId)
    requires id in z
    ensures Position(z, id).value <= |Without(z, {id})|
  {
    RestAfterPosition(z, id);
  }

  lemma WithChildrenKeys(shapes: map<ShapeId, Shape>, children: seq<Shape>)
    requires NoDup(ChildIds(children))
    ensures WithChildren(shapes, children).Keys == shapes.Keys + Elems(ChildIds(children))
    ensures var out := WithChildren(shapes, children);
            && (forall i :: 0 <= i < |children| ==> children[i].id in out && out[children[i].id] == children[i])
            && (forall id :: id in shapes && id !in ChildIds(children) ==> out[id] == shapes[id])
  {
    WithChildrenDomain(shapes, children);
    WithChildrenValues(shapes, children);
  }

  lemma {:induction false} WithChildrenDomain(shapes: map<ShapeId, Shape>, children: seq<Shape>)
    ensures WithChildren(shapes, children).Keys == shapes.Keys + Elems(ChildIds(children))
  {
    if children != [] {
      var n := |children| - 1;
      assert ChildIds(children) == ChildIds(children[..n]) + [children[n].id];
      WithChildrenDomain(shapes, children[..n]);
    }
  }

  lemma {:induction false} WithChildrenValues(shapes: map<ShapeId, Shape>, children: seq<Shape>)
    requires NoDup(ChildIds(children))
    ensures var out := WithChildren(shapes, children);
            && (forall i :: 0 <= i < |children| ==> children[i].id in out && out[children[i].id] == children[i])
            && (forall id :: id in shapes && id !in ChildIds(children) ==> id in out && out[id] == shapes[id])
  {
    if children != [] {
      var n := |children| - 1;
      assert ChildIds(children) == ChildIds(children[..n]) + [children[n].id];
      NoDupConcat(ChildIds(children[..n]), [children[n].id]);
      WithChildrenValues(shapes, children[..n]);
      var out := WithChildren(shapes, children);
      forall i | 0 <= i < |children| ensures children[i].id in out && out[children[i].id] == children[i] {
        if i < n {
          assert children[..n][i] == children[i] && ChildIds(children)[i] != ChildIds(children)[n];
        }
      }
    }
  }

  // ---------------------------------------------------------------- operations and when they keep the listing

  datatype Edit =
    | Add(shape: Shape)
    | Remove(id: ShapeId)
    | Clear
    | BringToFront(id: ShapeId)
    | SendToBack(id: ShapeId)
    | BringForward(id: ShapeId)
    | SendBackward(id: ShapeId)
    | MakeGroup(ids: seq<ShapeId>, gid: ShapeId)
    | Dissolve(gid: ShapeId)

  function Edited(s: Snapshot, e: Edit): Snapshot {
    match e
    case Add(shape) => Added(s, shape)
    case Remove(id) => Removed(s, id)
    case Clear => EMPTY
    case BringToFront(id) => ToFront(s, id)
    case SendToBack(id) => ToBack(s, id)
    case BringForward(id) => Forward(s, id).0
    case SendBackward(id) => Backward(s, id).0
    case MakeGroup(ids, gid) => if CanGroup(s, ids) then Grouped(s, ids, gid) else s
    case Dissolve(gid) => if CanUngroup(s, gid) then Ungrouped(s, gid) else s
  }

  /** What a caller must see to before each edit; the other edits ask for nothing. */
  predicate Proper(s: Snapshot, e: Edit) {
    match e
    case Add(shape) => shape.id !in s.shapes
    case BringToFront(id) => id in s.shapes
    case SendToBack(id) => id in s.shapes
    case MakeGroup(ids, gid) => CanGroup(s, ids) ==> gid !in s.shapes || gid in ids
    case Dissolve(gid) =>
      CanUngroup(s, gid) ==>
        var kids := ChildIds(s.shapes[gid].children);
        NoDup(kids) && forall x | x in kids :: x == gid || x !in s.shapes
    case _ => true
  }

  lemma SwapKeepsListed(s: Snapshot, i: nat, j: nat)
    requires Listed(s) && i < |s.zOrder| && j < |s.zOrder|
    ensures Listed(s.(zOrder := Swapped(s.zOrder, i, j)))
    ensures multiset(Swapped(s.zOrder, i, j)) == multiset(s.zOrder)
  {
    var z, z' := s.zOrder, Swapped(s.zOrder, i, j);
    forall x ensures x in z' <==> x in z {
      if x in z {
        var k :| 0 <= k < |z| && z[k] == x;
        assert z'[if k == i then j else if k == j then i else k] == x;
      }
    }
  }

  lemma EndMovesExactly(s: Snapshot, id: ShapeId)
    requires Listed(s)
    ensures Listed(ToFront(s, id)) <==> id in s.shapes
    ensures Listed(ToBack(s, id)) <==> id in s.shapes
  {
    var rest := Without(s.zOrder, {id});
    WithoutElems(s.zOrder, {id});
    NoDupConcat(rest, [id]);
    NoDupConcat([id], rest);
    assert id in ToFront(s, id).zOrder && id in ToBack(s, id).zOrder;
    forall x ensures x in rest + [id] <==> x in rest || x == id {
    }
  }

  lemma AddExactly(s: Snapshot, shape: Shape)
    requires Listed(s)
    ensures Listed(Added(s, shape)) <==> shape.id !in s.shapes
  {
    NoDupConcat(s.zOrder, [shape.id]);
  }

  lemma GroupedElems(s: Snapshot, ids: seq<ShapeId>, gid: ShapeId)
    requires Listed(s) && CanGroup(s, ids)
    ensures var t := Grouped(s, ids, gid); var rest := Without(s.zOrder, Elems(ids));
            && (NoDup(t.zOrder) <==> gid !in rest)
            && (forall x :: x in t.zOrder <==> x in rest || x == gid)
  {
    var rest := Without(s.zOrder, Elems(ids));
    WithoutElems(s.zOrder, Elems(ids));
    NoDupInsert(rest, GroupPosition(s, ids), [gid]);
  }

  lemma GroupExactly(s: Snapshot, ids: seq<ShapeId>, gid: ShapeId)
    requires Listed(s) && CanGroup(s, ids)
    ensures Listed(Grouped(s, ids, gid)) <==> gid !in s.shapes || gid in ids
  {
    WithoutElems(s.zOrder, Elems(ids));
    GroupedElems(s, ids, gid);
    assert Grouped(s, ids, gid).shapes.Keys == s.shapes.Keys - Elems(ids) + {gid};
  }

  lemma UngroupedShapes(s: Snapshot, gid: ShapeId)
    requires Listed(s) && CanUngroup(s, gid) && NoDup(ChildIds(s.shapes[gid].children))
    ensures var t, kids := Ungrouped(s, gid).shapes, ChildIds(s.shapes[gid].children);
            && t.Keys == s.shapes.Keys - {gid} + Elems(kids)
            && forall id :: id in t ==> t[id].id == id
  {
    var children := s.shapes[gid].children;
    var t, kids := Ungrouped(s, gid).shapes, ChildIds(children);
    WithChildrenKeys(s.shapes - {gid}, children);
    forall id | id in t ensures t[id].id == id {
      if id in kids {
        var i :| 0 <= i < |kids| && kids[i] == id;
        assert t[children[i].id] == children[i];
      }
    }
  }

  lemma UngroupedElems(s: Snapshot, gid: ShapeId)
    requires NoDup(s.zOrder) && CanUngroup(s, gid)
    ensures var t, kids := Ungrouped(s, gid), ChildIds(s.shapes[gid].children);
            && (NoDup(t.zOrder) <==> NoDup(kids) && forall x :: x in kids ==> x == gid || x !in s.zOrder)
            && (forall x :: x in t.zOrder <==> (x in s.zOrder && x != gid) || x in kids)
  {
    var rest := Without(s.zOrder, {gid});
    WithoutElems(s.zOrder, {gid});
    RestAfterPosition(s.zOrder, gid);
    NoDupInsert(rest, Position(s.zOrder, gid).value, ChildIds(s.shapes[gid].children));
  }

  lemma UngroupExactly(s: Snapshot, gid: ShapeId)
    requires Listed(s) && CanUngroup(s, gid)
    ensures Listed(Ungrouped(s, gid)) <==> Proper(s, Dissolve(gid))
  {
    UngroupedElems(s, gid);
    if NoDup(ChildIds(s.shapes[gid].children)) {
      UngroupedShapes(s, gid);
    }
  }

  lemma ForwardKeepsListed(s: Snapshot, id: ShapeId)
    requires Listed(s)
    ensures Listed(Edited(s, BringForward(id)))
  {
    var pos := Position(s.zOrder, id);
    if pos.Some? && pos.value + 1 < |s.zOrder| { SwapKeepsListed(s, pos.value, pos.value + 1); }
  }

  lemma BackwardKeepsListed(s: Snapshot, id: ShapeId)
    requires Listed(s)
    ensures Listed(Edited(s, SendBackward(id)))
  {
    var pos := Position(s.zOrder, id);
    if pos.Some? && pos.value > 0 { SwapKeepsListed(s, pos.value, pos.value - 1); }
  }

  lemma RemoveKeepsListed(s: Snapshot, id: ShapeId)
    requires Listed(s)
    ensures Listed(Edited(s, Remove(id)))
  {
    WithoutElems(s.zOrder, {id});
  }

  /** An edit of a listed document leaves it listed exactly when it is proper. */
  lemma EditKeepsListedExactly(s: Snapshot, e: Edit)
    requires Listed(s)
    ensures Listed(Edited(s, e)) <==> Proper(s, e)
  {
    match e
    case Add(shape) => AddExactly(s, shape);
    case Remove(id) => RemoveKeepsListed(s, id);
    case Clear =>
    case BringToFront(id) => EndMovesExactly(s, id);
    case SendToBack(id) => EndMovesExactly(s, id);
    case BringForward(id) => ForwardKeepsListed(s, id);
    case SendBackward(id) => BackwardKeepsListed(s, id);
    case MakeGroup(ids, gid) => if CanGroup(s, ids) { GroupExactly(s, ids, gid); }
    case Dissolve(gid) => if CanUngroup(s, gid) { UngroupExactly(s, gid); }
  }

  // ---------------------------------------------------------------- what grouping does to the order

  lemma FilterFirst(x: ShapeId, z: seq<ShapeId>, m: set<ShapeId>)
    ensures Without([x] + z, m) == (if x in m then [] else [x]) + Without(z, m)
    ensures Only([x] + z, m) == (if x in m then [x] else []) + Only(z, m)
  {
    assert ([x] + z)[1..] == z;
  }

  lemma SplitAround(a: seq<ShapeId>, x: ShapeId, b: seq<ShapeId>, m: set<ShapeId>)
    requires x in m && forall y :: y in b ==> y !in m
    ensures Without(a + ([x] + b), m) == Without(a, m) + b
    ensures Only(a + ([x] + b), m) == Only(a, m) + [x]
  {
    WithoutConcat(a, [x] + b, m);
    FilterFirst(x, b, m);
    WithoutAbsent(b, m);
    assert [] + b == b && [x] + [] == [x];
  }

  /** Splitting the z-order at its frontmost member: everything above it is kept. */
  lemma SplitAtFront(z: seq<ShapeId>, m: set<ShapeId>, front: nat)
    requires front < |z| && z[front] in m && forall j :: front < j < |z| ==> z[j] !in m
    ensures Without(z, m) == Without(z[..front], m) + z[front + 1..]
    ensures Only(z, m) == Only(z[..front], m) + [z[front]]
  {
    assert z == z[..front] + ([z[front]] + z[front + 1..]);
    SplitAround(z[..front], z[front], z[front + 1..], m);
  }

  lemma OthersBelowFront(z: seq<ShapeId>, m: set<ShapeId>, front: nat)
    requires NoDup(z) && m <= Elems(z)
    requires front < |z| && z[front] in m && forall j :: front < j < |z| ==> z[j] !in m
    ensures |Without(z[..front], m)| == front + 1 - |m|
  {
    var below, others := z[..front], m - {z[front]};
    forall x | x in others ensures x in below {
      var i :| 0 <= i < |z| && z[i] == x;
      assert i < front;
    }
    WithoutCount(below, others);
    WithoutSame(below, m, others);
  }

  lemma OnlyCount(z: seq<ShapeId>, keep: set<ShapeId>)
    requires NoDup(z) && keep <= Elems(z)
    ensures |Only(z, keep)| == |keep|
  {
    OnlyElems(z, keep);
    DistinctCount(Only(z, keep));
    assert Elems(Only(z, keep)) == keep;
  }

  lemma {:induction false} ElemsCount(ids: seq<ShapeId>)
    ensures |Elems(ids)| <= |ids|
  {
    if ids != [] {
      assert Elems(ids) == Elems(ids[1..]) + {ids[0]};
      ElemsCount(ids[1..]);
    }
  }

  lemma MemberCount(s: Snapshot, ids: seq<ShapeId>)
    requires Listed(s)
    ensures Members(s, ids) <= Elems(s.zOrder) && |Members(s, ids)| <= |ids|
    ensures |Only(s.zOrder, Members(s, ids))| == |Members(s, ids)|
  {
    ElemsCount(ids);
    assert Members(s, ids) <= Elems(ids) && Members(s, ids) <= Elems(s.zOrder);
    SubsetCount(Members(s, ids), Elems(ids));
    OnlyCount(s.zOrder, Members(s, ids));
  }

  lemma SubsetCount(a: set<ShapeId>, b: set<ShapeId>)
    requires a <= b
    ensures |a| <= |b|
  {
    assert b == a + (b - a);
  }

  /** Ids can be grouped exactly when at least two different ones name shapes. */
  lemma CanGroupExactly(s: Snapshot, ids: seq<ShapeId>)
    requires Listed(s)
    ensures CanGroup(s, ids) <==> |set x | x in ids && x in s.shapes| >= 2
  {
    MemberCount(s, ids);
    assert (set x | x in ids && x in s.shapes) == Members(s, ids);
  }

  /** In a listed document only members among the ids matter. */
  lemma MembersMatter(s: Snapshot, ids: seq<ShapeId>)
    requires Listed(s)
    ensures Without(s.zOrder, Elems(ids)) == Without(s.zOrder, Members(s, ids))
    ensures s.shapes - Elems(ids) == s.shapes - Members(s, ids)
  {
    WithoutSame(s.zOrder, Elems(ids), Members(s, ids));
  }

  lemma MembersListed(s: Snapshot, ids: seq<ShapeId>)
    requires CanGroup(s, ids)
    ensures exists x :: x in s.zOrder && x in Members(s, ids)
  {
    OnlyElems(s.zOrder, Members(s, ids));
    assert Only(s.zOrder, Members(s, ids))[0] in s.zOrder;
  }

  /** The index of the frontmost member. */
  function FrontOf(s: Snapshot, ids: seq<ShapeId>): (front: nat)
    requires CanGroup(s, ids)
    ensures front < |s.zOrder| && s.zOrder[front] in Members(s, ids)
    ensures forall j :: front < j < |s.zOrder| ==> s.zOrder[j] !in Members(s, ids)
  {
    MembersListed(s, ids);
    Frontmost(s.zOrder, Members(s, ids))
  }

  /** The shapes that stay, split at the frontmost member. */
  function Below(s: Snapshot, ids: seq<ShapeId>): seq<ShapeId>
    requires CanGroup(s, ids)
  {
    Without(s.zOrder[..FrontOf(s, ids)], Members(s, ids))
  }

  function Above(s: Snapshot, ids: seq<ShapeId>): seq<ShapeId>
    requires CanGroup(s, ids)
  {
    s.zOrder[FrontOf(s, ids) + 1..]
  }

  lemma MembersBelow(s: Snapshot, ids: seq<ShapeId>)
    requires Listed(s) && CanGroup(s, ids)
    ensures |Below(s, ids)| + |Members(s, ids)| == FrontOf(s, ids) + 1
  {
    assert Members(s, ids) <= Elems(s.zOrder) by { MemberCount(s, ids); }
    OthersBelowFront(s.zOrder, Members(s, ids), FrontOf(s, ids));
  }

  lemma SplitAtMembers(s: Snapshot, ids: seq<ShapeId>)
    requires Listed(s) && CanGroup(s, ids)
    ensures Without(s.zOrder, Elems(ids)) == Below(s, ids) + Above(s, ids)
    ensures |Below(s, ids)| + |Members(s, ids)| == FrontOf(s, ids) + 1
  {
    MembersBelow(s, ids);
    assert Without(s.zOrder, Elems(ids)) == Without(s.zOrder, Members(s, ids)) by { MembersMatter(s, ids); }
    SplitAtFront(s.zOrder, Members(s, ids), FrontOf(s, ids));
  }

  /** Every id given beyond the members moves the group down by one, as far as the bottom. */
  lemma PositionOfGroup(s: Snapshot, ids: seq<ShapeId>)
    requires Listed(s) && CanGroup(s, ids)
    ensures var members, below := |Members(s, ids)|, |Below(s, ids)|;
            GroupPosition(s, ids) == if below + members < |ids| then 0 else below + members - |ids|
    ensures GroupPosition(s, ids) <= |Below(s, ids)|
  {
    MemberCount(s, ids);
    SplitAtMembers(s, ids);
  }

  /** Every id names a shape, and only once; or no other shape stands below the frontmost member. */
  ghost predicate ReachesFront(s: Snapshot, ids: seq<ShapeId>)
    requires CanGroup(s, ids)
  {
    |ids| == |Members(s, ids)| || forall i :: 0 <= i < FrontOf(s, ids) ==> s.zOrder[i] in Members(s, ids)
  }

  lemma NothingBelow(z: seq<ShapeId>, m: set<ShapeId>)
    ensures Without(z, m) == [] <==> forall i :: 0 <= i < |z| ==> z[i] in m
  {
    WithoutElems(z, m);
    if Without(z, m) != [] {
      assert Without(z, m)[0] in z;
    }
    if exists i :: 0 <= i < |z| && z[i] !in m {
      var i :| 0 <= i < |z| && z[i] !in m;
      assert z[i] in Without(z, m);
    }
  }

  lemma ReachesFrontExactly(s: Snapshot, ids: seq<ShapeId>)
    requires Listed(s) && CanGroup(s, ids)
    ensures GroupPosition(s, ids) == |Below(s, ids)| <==> ReachesFront(s, ids)
  {
    MemberCount(s, ids);
    PositionOfGroup(s, ids);
    NothingBelow(s.zOrder[..FrontOf(s, ids)], Members(s, ids));
    assert forall i :: 0 <= i < FrontOf(s, ids) ==> s.zOrder[..FrontOf(s, ids)][i] == s.zOrder[i];
  }

  /** The group stands where the frontmost member was, in the order without the members. */
  ghost predicate PlacedAtFront(s: Snapshot, ids: seq<ShapeId>, gid: ShapeId)
    requires CanGroup(s, ids)
  {
    Grouped(s, ids, gid).zOrder == Below(s, ids) + [gid] + Above(s, ids)
  }

  lemma InsertAt(low: seq<ShapeId>, high: seq<ShapeId>, pos: nat, x: ShapeId)
    requires pos <= |low|
    ensures pos == |low| ==> Insert(low + high, pos, x) == low + [x] + high
    ensures pos < |low| && x !in low ==> Insert(low + high, pos, x) != low + [x] + high
  {
    if pos < |low| && x !in low {
      assert Insert(low + high, pos, x)[pos] == x && (low + [x] + high)[pos] == low[pos];
    }
  }

  /**
   The group takes the place of the frontmost member exactly when every id names a shape only once, or
   when no other shape stands below that member; for an id already in use only the first half is sure.
   */
  lemma GroupPlacement(s: Snapshot, ids: seq<ShapeId>, gid: ShapeId)
    requires Listed(s) && CanGroup(s, ids)
    ensures ReachesFront(s, ids) ==> PlacedAtFront(s, ids, gid)
    ensures gid !in s.shapes || gid in ids ==> (PlacedAtFront(s, ids, gid) <==> ReachesFront(s, ids))
  {
    ReachesFrontExactly(s, ids);
    PositionOfGroup(s, ids);
    SplitAtMembers(s, ids);
    WithoutElems(s.zOrder[..FrontOf(s, ids)], Members(s, ids));
    InsertAt(Below(s, ids), Above(s, ids), GroupPosition(s, ids), gid);
  }

  lemma FilterList(a: ShapeId, b: ShapeId, c: ShapeId, m: set<ShapeId>)
    requires a !in m && b in m && c in m
    ensures Without([a, b, c], m) == [a] && Only([a, b, c], m) == [b, c]
  {
    FilterFirst(c, [], m);
    FilterFirst(b, [c], m);
    FilterFirst(a, [b, c], m);
    assert [a] + [b, c] == [a, b, c] && [b] + [c] == [b, c] && [c] + [] == [c];
  }

  /** An id that names no shape sinks the group: it ends up below the shape its members stood above. */
  lemma UnknownIdSinksGroup(s: Snapshot, a: ShapeId, b: ShapeId, c: ShapeId, unknown: ShapeId, gid: ShapeId)
    requires Listed(s) && s.zOrder == [a, b, c] && unknown !in s.shapes
    ensures CanGroup(s, [b, c, unknown]) && Grouped(s, [b, c, unknown], gid).zOrder == [gid, a]
    ensures !ReachesFront(s, [b, c, unknown])
  {
    var ids := [b, c, unknown];
    assert a == s.zOrder[0] && b == s.zOrder[1] && c == s.zOrder[2];
    assert a in s.shapes && Members(s, ids) == {b, c};
    FilterList(a, b, c, Members(s, ids));
    assert CanGroup(s, ids);
    assert FrontOf(s, ids) == 2;
    MembersMatter(s, ids);
    assert GroupPosition(s, ids) == 0;
    assert s.zOrder[0] !in Members(s, ids);
  }

  /** The members occupy one block of the z-order. */
  ghost predicate Contiguous(z: seq<ShapeId>, m: set<ShapeId>) {
    exists a, b :: Block(z, m, a, b)
  }

  ghost predicate Block(z: seq<ShapeId>, m: set<ShapeId>, a: int, b: int) {
    0 <= a <= b <= |z| && forall i :: 0 <= i < |z| ==> (z[i] in m <==> a <= i < b)
  }

  lemma GroupedChildren(s: Snapshot, ids: seq<ShapeId>, gid: ShapeId)
    requires Listed(s) && CanGroup(s, ids)
    ensures var g := Grouped(s, ids, gid);
            && gid in g.shapes && g.shapes[gid].Group?
            && ChildIds(g.shapes[gid].children) == Only(s.zOrder, Members(s, ids))
            && forall sh :: sh in g.shapes[gid].children ==> sh.id in s.shapes && s.shapes[sh.id] == sh
  {
    OnlyElems(s.zOrder, Members(s, ids));
    assert ChildIds(ShapesOf(s, Only(s.zOrder, Members(s, ids)))) == Only(s.zOrder, Members(s, ids));
  }

  /** The shapes that stay, split where the group goes. */
  function Low(s: Snapshot, ids: seq<ShapeId>): seq<ShapeId>
    requires CanGroup(s, ids)
  {
    Without(s.zOrder, Elems(ids))[..GroupPosition(s, ids)]
  }

  function High(s: Snapshot, ids: seq<ShapeId>): seq<ShapeId>
    requires CanGroup(s, ids)
  {
    Without(s.zOrder, Elems(ids))[GroupPosition(s, ids)..]
  }

  lemma LowAndHigh(s: Snapshot, ids: seq<ShapeId>)
    requires Listed(s) && CanGroup(s, ids)
    ensures Low(s, ids) + High(s, ids) == Without(s.zOrder, Members(s, ids))
    ensures forall x :: x in Low(s, ids) || x in High(s, ids) ==> x in s.shapes && x !in Members(s, ids)
  {
    MembersMatter(s, ids);
    WithoutElems(s.zOrder, Members(s, ids));
  }

  /** Ungrouping a fresh group puts its members side by side where the group was. */
  lemma RegroupedOrder(s: Snapshot, ids: seq<ShapeId>, gid: ShapeId)
    requires Listed(s) && CanGroup(s, ids) && gid !in s.shapes
    ensures CanUngroup(Grouped(s, ids, gid), gid)
    ensures Ungrouped(Grouped(s, ids, gid), gid).zOrder
            == Low(s, ids) + Only(s.zOrder, Members(s, ids)) + High(s, ids)
  {
    GroupedChildren(s, ids, gid);
    LowAndHigh(s, ids);
    UngroupInPlace(Grouped(s, ids, gid), gid, Low(s, ids), High(s, ids));
  }

  /**
   Whatever ids were given, grouping and then ungrouping restores the shape map and keeps the relative
   order of the members and of the others; it restores the z-order itself exactly when the members were
   contiguous and the group took the place of the frontmost.
   */
  lemma GroupThenUngroup(s: Snapshot, ids: seq<ShapeId>, gid: ShapeId)
    requires Listed(s) && CanGroup(s, ids) && gid !in s.shapes
    ensures CanUngroup(Grouped(s, ids, gid), gid)
    ensures var m := Members(s, ids); var t := Ungrouped(Grouped(s, ids, gid), gid);
            && t.shapes == s.shapes
            && Only(t.zOrder, m) == Only(s.zOrder, m) && Without(t.zOrder, m) == Without(s.zOrder, m)
            && (t.zOrder == s.zOrder <==> Contiguous(s.zOrder, m) && ReachesFront(s, ids))
  {
    RegroupedOrder(s, ids, gid);
    RestoredShapes(s, ids, gid);
    LowAndHigh(s, ids);
    OnlyElems(s.zOrder, Members(s, ids));
    RegroupedOrders(Low(s, ids), Only(s.zOrder, Members(s, ids)), High(s, ids), Members(s, ids));
    RestoredExactly(s, ids);
  }

  lemma UngroupInPlace(g: Snapshot, gid: ShapeId, below: seq<ShapeId>, above: seq<ShapeId>)
    requires g.zOrder == below + [gid] + above && gid !in below && gid !in above
    requires gid in g.shapes && g.shapes[gid].Group?
    ensures CanUngroup(g, gid)
    ensures Ungrouped(g, gid).zOrder == below + ChildIds(g.shapes[gid].children) + above
  {
    assert g.zOrder[|below|] == gid;
    RestAfterPosition(g.zOrder, gid);
    var pos := Position(g.zOrder, gid).value;
    assert pos == |below| by {
      assert g.zOrder[pos] == gid;
    }
    assert g.zOrder[..pos] == below && g.zOrder[pos + 1..] == above;
    WithoutAbsent(above, {gid});
  }

  /** Taking shapes out and putting them back as children restores the map. */
  lemma PutBack(shapes: map<ShapeId, Shape>, kids: seq<ShapeId>, children: seq<Shape>)
    requires NoDup(kids) && ChildIds(children) == kids
    requires forall i :: 0 <= i < |kids| ==> kids[i] in shapes && children[i] == shapes[kids[i]]
    ensures WithChildren(shapes - Elems(kids), children) == shapes
  {
    var out := WithChildren(shapes - Elems(kids), children);
    WithChildrenKeys(shapes - Elems(kids), children);
    forall id | id in shapes ensures id in out && out[id] == shapes[id] {
      if id in kids {
        var i :| 0 <= i < |kids| && kids[i] == id;
        assert children[i].id == kids[i];
      }
    }
    assert out.Keys == shapes.Keys;
  }

  lemma RestoredShapes(s: Snapshot, ids: seq<ShapeId>, gid: ShapeId)
    requires Listed(s) && CanGroup(s, ids) && gid !in s.shapes
    ensures WithChildren(Grouped(s, ids, gid).shapes - {gid}, Grouped(s, ids, gid).shapes[gid].children) == s.shapes
  {
    var kids := Only(s.zOrder, Members(s, ids));
    OnlyElems(s.zOrder, Members(s, ids));
    assert Elems(kids) == Members(s, ids);
    MembersMatter(s, ids);
    assert Grouped(s, ids, gid).shapes - {gid} == s.shapes - Elems(ids);
    assert ChildIds(ShapesOf(s, kids)) == kids;
    PutBack(s.shapes, kids, ShapesOf(s, kids));
  }

  lemma RestoredExactly(s: Snapshot, ids: seq<ShapeId>)
    requires Listed(s) && CanGroup(s, ids)
    ensures Low(s, ids) + Only(s.zOrder, Members(s, ids)) + High(s, ids) == s.zOrder
            <==> Contiguous(s.zOrder, Members(s, ids)) && ReachesFront(s, ids)
  {
    if Low(s, ids) + Only(s.zOrder, Members(s, ids)) + High(s, ids) == s.zOrder {
      RestoredMeans(s, ids);
    }
    if Contiguous(s.zOrder, Members(s, ids)) && ReachesFront(s, ids) {
      BlockRestores(s, ids);
    }
  }

  lemma BlockRestores(s: Snapshot, ids: seq<ShapeId>)
    requires Listed(s) && CanGroup(s, ids) && Contiguous(s.zOrder, Members(s, ids)) && ReachesFront(s, ids)
    ensures Low(s, ids) + Only(s.zOrder, Members(s, ids)) + High(s, ids) == s.zOrder
  {
    assert Low(s, ids) == Below(s, ids) && High(s, ids) == Above(s, ids) by {
      ReachesFrontExactly(s, ids);
      SplitAtMembers(s, ids);
      SplitBack(Below(s, ids), Above(s, ids));
    }
    var a, b :| Block(s.zOrder, Members(s, ids), a, b);
    BlockIsUnmoved(s.zOrder, Members(s, ids), FrontOf(s, ids), a, b);
  }

  lemma RestoredMeans(s: Snapshot, ids: seq<ShapeId>)
    requires Listed(s) && CanGroup(s, ids)
    requires Low(s, ids) + Only(s.zOrder, Members(s, ids)) + High(s, ids) == s.zOrder
    ensures Contiguous(s.zOrder, Members(s, ids)) && ReachesFront(s, ids)
  {
    var z, m, kids := s.zOrder, Members(s, ids), Only(s.zOrder, Members(s, ids));
    LowAndHigh(s, ids);
    OnlyElems(z, m);
    UnmovedIsBlock(z, m, Low(s, ids), kids, High(s, ids));
    UnmovedFront(z, m, Low(s, ids), kids, High(s, ids), FrontOf(s, ids));
    BelowUnmoved(Low(s, ids), kids[..|kids| - 1], m);
    ReachesFrontExactly(s, ids);
  }

  lemma UnmovedFront(z: seq<ShapeId>, m: set<ShapeId>, low: seq<ShapeId>, kids: seq<ShapeId>, above: seq<ShapeId>,
                     front: nat)
    requires z == low + kids + above && kids != [] && Block(z, m, |low|, |low| + |kids|)
    requires front < |z| && z[front] in m && forall j :: front < j < |z| ==> z[j] !in m
    ensures z[..front] == low + kids[..|kids| - 1]
  {
    assert z[|low| + |kids| - 1] in m;
  }

  lemma BelowUnmoved(low: seq<ShapeId>, most: seq<ShapeId>, m: set<ShapeId>)
    requires (forall x :: x in low ==> x !in m) && forall x :: x in most ==> x in m
    ensures Without(low + most, m) == low
  {
    WithoutConcat(low, most, m);
    WithoutAbsent(low, m);
    OnlyPresent(most, m);
    assert low + [] == low;
  }

  lemma RegroupedOrders(low: seq<ShapeId>, kids: seq<ShapeId>, above: seq<ShapeId>, m: set<ShapeId>)
    requires (forall x :: x in low ==> x !in m) && (forall x :: x in above ==> x !in m)
    requires forall x :: x in kids ==> x in m
    ensures Only(low + kids + above, m) == kids && Without(low + kids + above, m) == low + above
  {
    BlockParts(low, kids, kids, above, m);
    FilterThree(low, kids, above, m);
    DropEmpties(low, kids, above);
  }

  lemma DropEmpties(a: seq<ShapeId>, b: seq<ShapeId>, c: seq<ShapeId>)
    ensures a + [] + c == a + c && [] + b + [] == b && a + b + [] == a + b && a + [] + [] == a
  {
  }

  lemma UnmovedIsBlock(z: seq<ShapeId>, m: set<ShapeId>, low: seq<ShapeId>, kids: seq<ShapeId>, above: seq<ShapeId>)
    requires z == low + kids + above
    requires (forall x :: x in low ==> x !in m) && (forall x :: x in above ==> x !in m)
    requires forall x :: x in kids ==> x in m
    ensures Block(z, m, |low|, |low| + |kids|)
  {
    forall i | 0 <= i < |z| ensures z[i] in m <==> |low| <= i < |low| + |kids| {
      if i < |low| {
        assert z[i] == low[i];
      } else if i < |low| + |kids| {
        assert z[i] == kids[i - |low|];
      } else {
        assert z[i] == above[i - |low| - |kids|];
      }
    }
  }

  lemma BlockIsUnmoved(z: seq<ShapeId>, m: set<ShapeId>, front: nat, a: int, b: int)
    requires front < |z| && z[front] in m && forall j :: front < j < |z| ==> z[j] !in m
    requires Block(z, m, a, b)
    ensures Without(z[..front], m) + Only(z, m) + z[front + 1..] == z
  {
    var low, kids, above := z[..a], z[a..b], z[b..];
    assert z[b - 1] in m && b == front + 1;
    assert z == low + kids + above && z[..front] == low + z[a..front] + [];
    BlockParts(low, kids, z[a..front], above, m);
    FilterThree(low, kids, above, m);
    FilterThree(low, z[a..front], [], m);
    DropEmpties(low, kids, above);
  }

  lemma BlockParts(low: seq<ShapeId>, kids: seq<ShapeId>, most: seq<ShapeId>, above: seq<ShapeId>, m: set<ShapeId>)
    requires (forall x :: x in low ==> x !in m) && (forall x :: x in above ==> x !in m)
    requires (forall x :: x in kids ==> x in m) && forall x :: x in most ==> x in m
    ensures Without(low, m) == low && Only(low, m) == [] && Only(above, m) == [] && Only(kids, m) == kids
            && Without(most, m) == []
    ensures Without(above, m) == above
  {
    WithoutAbsent(low, m);
    WithoutAbsent(above, m);
    OnlyPresent(kids, m);
    OnlyPresent(most, m);
  }

  // ---------------------------------------------------------------- what the other edits do to the order

  /** The shape ends up on top or at the bottom, once, and the order of all others stays. */
  lemma EndMoves(s: Snapshot, id: ShapeId)
    ensures var z := ToFront(s, id).zOrder; var n := |z| - 1;
            n >= 0 && z[n] == id && id !in z[..n] && Without(z, {id}) == Without(s.zOrder, {id})
    ensures var z := ToBack(s, id).zOrder;
            z != [] && z[0] == id && id !in z[1..] && Without(z, {id}) == Without(s.zOrder, {id})
    ensures ToFront(s, id).shapes == ToBack(s, id).shapes == s.shapes
  {
    var rest := Without(s.zOrder, {id});
    WithoutElems(s.zOrder, {id});
    WithoutAbsent(rest, {id});
    WithoutConcat(rest, [id], {id});
    WithoutConcat([id], rest, {id});
    OnlyPresent([id], {id});
    assert (rest + [id])[..|rest|] == rest && ([id] + rest)[1..] == rest;
    assert rest + [] == rest && [] + rest == rest;
  }

  /** Two neighbours change places and nothing else moves. */
  predicate NeighboursSwap(z: seq<ShapeId>, z': seq<ShapeId>, i: nat) {
    && i + 1 < |z| == |z'| && z'[i] == z[i + 1] && z'[i + 1] == z[i]
    && forall j | 0 <= j < |z| && j != i && j != i + 1 :: z'[j] == z[j]
  }

  /** The shape passes the one above it; the order of all others stays. */
  ghost predicate StepsUp(z: seq<ShapeId>, z': seq<ShapeId>, id: ShapeId) {
    exists i: nat :: NeighboursSwap(z, z', i) && z[i] == id && id !in z[..i]
  }

  ghost predicate StepsDown(z: seq<ShapeId>, z': seq<ShapeId>, id: ShapeId) {
    exists i: nat :: NeighboursSwap(z, z', i) && z[i + 1] == id && id !in z[..i + 1]
  }

  lemma FirstOccurrence(z: seq<ShapeId>, id: ShapeId, i: nat)
    requires i < |z| && z[i] == id
    ensures Position(z, id).Some? && Position(z, id).value <= i
  {
    assert id in z;
    var pos := Position(z, id).value;
    assert forall j :: 0 <= j < pos ==> z[..pos][j] == z[j];
  }

  /** The shape moves by one place exactly when there is one to move to, else nothing changes. */
  lemma StepMoves(s: Snapshot, id: ShapeId)
    ensures var (t, moved) := Forward(s, id);
            && (moved <==> exists i: nat :: i < |s.zOrder| - 1 && s.zOrder[i] == id)
            && (moved ==> t.shapes == s.shapes && StepsUp(s.zOrder, t.zOrder, id)) && (!moved ==> t == s)
    ensures var (t, moved) := Backward(s, id);
            && (moved <==> s.zOrder != [] && s.zOrder[0] != id && id in s.zOrder)
            && (moved ==> t.shapes == s.shapes && StepsDown(s.zOrder, t.zOrder, id)) && (!moved ==> t == s)
  {
    var pos := Position(s.zOrder, id);
    if pos.Some? && pos.value + 1 < |s.zOrder| {
      assert NeighboursSwap(s.zOrder, Forward(s, id).0.zOrder, pos.value);
    }
    if exists i: nat :: i < |s.zOrder| - 1 && s.zOrder[i] == id {
      var i: nat :| i < |s.zOrder| - 1 && s.zOrder[i] == id;
      FirstOccurrence(s.zOrder, id, i);
    }
    if pos.Some? && pos.value > 0 {
      assert NeighboursSwap(s.zOrder, Backward(s, id).0.zOrder, pos.value - 1);
    }
  }

  lemma SwapKeepsOthers(z: seq<ShapeId>, z': seq<ShapeId>, i: nat, id: ShapeId)
    requires NeighboursSwap(z, z', i) && (z[i] == id || z[i + 1] == id)
    ensures Without(z', {id}) == Without(z, {id})
  {
    var low, high := z[..i], z[i + 2..];
    assert z == low + [z[i], z[i + 1]] + high && z' == low + [z[i + 1], z[i]] + high;
    FilterThree(low, [z[i], z[i + 1]], high, {id});
    FilterThree(low, [z[i + 1], z[i]], high, {id});
    PairWithout(z[i], z[i + 1], id);
  }

  lemma PairWithout(x: ShapeId, y: ShapeId, id: ShapeId)
    requires x == id || y == id
    ensures Without([x, y], {id}) == Without([y, x], {id})
  {
    assert [x, y][1..] == [y] && [y, x][1..] == [x] && [x][1..] == [] && [y][1..] == [];
  }

  lemma StepMovesKeepOthers(z: seq<ShapeId>, z': seq<ShapeId>, id: ShapeId)
    requires StepsUp(z, z', id) || StepsDown(z, z', id)
    ensures Without(z', {id}) == Without(z, {id})
  {
    if StepsUp(z, z', id) {
      var i: nat :| NeighboursSwap(z, z', i) && z[i] == id && id !in z[..i];
      SwapKeepsOthers(z, z', i, id);
    } else {
      var i: nat :| NeighboursSwap(z, z', i) && z[i + 1] == id && id !in z[..i + 1];
      SwapKeepsOthers(z, z', i, id);
    }
  }

  /** A removed shape is gone, and every other shape and its order stays. */
  lemma RemovingKeepsOthers(s: Snapshot, id: ShapeId)
    ensures var t := Removed(s, id);
            && id !in t.shapes && id !in t.zOrder && Without(t.zOrder, {id}) == Without(s.zOrder, {id})
            && forall k :: k in s.shapes && k != id ==> k in t.shapes && t.shapes[k] == s.shapes[k]
    ensures Removed(s, id).shapes.Keys <= s.shapes.Keys
  {
    WithoutElems(s.zOrder, {id});
    WithoutWithout(s.zOrder, {id}, {id});
    assert {id} + {id} == {id};
  }

  lemma InsertedAside(low: seq<ShapeId>, x: ShapeId, high: seq<ShapeId>)
    requires x !in low && x !in high
    ensures Without(low + [x] + high, {x}) == low + high
  {
    DropOne(low, x, high);
    WithoutAbsent(high, {x});
  }

  /** What grouping leaves alone: the order of the other shapes, and these shapes themselves. */
  lemma GroupingKeepsOthers(s: Snapshot, ids: seq<ShapeId>, gid: ShapeId)
    requires Listed(s) && CanGroup(s, ids) && gid !in s.shapes
    ensures var t := Grouped(s, ids, gid);
            && gid in t.zOrder && Without(t.zOrder, {gid}) == Without(s.zOrder, Elems(ids))
            && t.shapes.Keys == s.shapes.Keys - Elems(ids) + {gid}
            && forall k :: k in s.shapes && k !in ids ==> t.shapes[k] == s.shapes[k]
  {
    LowAndHigh(s, ids);
    MembersMatter(s, ids);
    InsertedAside(Low(s, ids), gid, High(s, ids));
    assert Grouped(s, ids, gid).zOrder == Low(s, ids) + [gid] + High(s, ids);
    assert Grouped(s, ids, gid).zOrder[GroupPosition(s, ids)] == gid;
  }

  /** Ungrouping puts the children, unchanged and in order, where the group was. */
  lemma UngroupingReplaces(s: Snapshot, gid: ShapeId, below: seq<ShapeId>, above: seq<ShapeId>)
    requires Listed(s) && CanUngroup(s, gid) && s.zOrder == below + [gid] + above
    requires NoDup(ChildIds(s.shapes[gid].children))
    ensures var t, children := Ungrouped(s, gid), s.shapes[gid].children;
            && t.zOrder == below + ChildIds(children) + above
            && (forall i :: 0 <= i < |children| ==>
                              children[i].id in t.shapes && t.shapes[children[i].id] == children[i])
            && forall k :: k in s.shapes && k != gid && k !in ChildIds(children) ==>
                             k in t.shapes && t.shapes[k] == s.shapes[k]
  {
    OnceOnly(s.zOrder, below, gid, above);
    UngroupInPlace(s, gid, below, above);
    WithChildrenKeys(s.shapes - {gid}, s.shapes[gid].children);
  }

  lemma OnceOnly(z: seq<ShapeId>, below: seq<ShapeId>, id: ShapeId, above: seq<ShapeId>)
    requires NoDup(z) && z == below + [id] + above
    ensures id !in below && id !in above
  {
    assert z[|below|] == id;
    assert forall i :: 0 <= i < |below| ==> z[i] == below[i];
    assert forall i :: 0 <= i < |above| ==> z[|below| + 1 + i] == above[i];
  }

  // ---------------------------------------------------------------- conservation

  function Leaves(sh: Shape): multiset<Shape>
    decreases sh, 1
  {
    match sh
    case Leaf(_, _) => multiset{sh}
    case Group(_, children) => LeavesOfAll(children)
  }

  function LeavesOfAll(children: seq<Shape>): multiset<Shape>
    decreases children, 0
  {
    if children == [] then multiset{} else Leaves(children[0]) + LeavesOfAll(children[1..])
  }

  /** The ids of a shape and of everything nested in it. */
  function Ids(sh: Shape): multiset<ShapeId>
    decreases sh, 1
  {
    match sh
    case Leaf(id, _) => multiset{id}
    case Group(id, children) => multiset{id} + IdsOfAll(children)
  }

  function IdsOfAll(children: seq<Shape>): multiset<ShapeId>
    decreases children, 0
  {
    if children == [] then multiset{} else Ids(children[0]) + IdsOfAll(children[1..])
  }

  function Sum<T>(shapes: seq<Shape>, f: Shape -> multiset<T>): multiset<T> {
    if shapes == [] then multiset{} else f(shapes[0]) + Sum(shapes[1..], f)
  }

  /** `f` summed over the shapes listed by `z`. */
  function Total<T>(z: seq<ShapeId>, shapes: map<ShapeId, Shape>, f: Shape -> multiset<T>): multiset<T> {
    if z == [] then multiset{}
    else (if z[0] in shapes then f(shapes[z[0]]) else multiset{}) + Total(z[1..], shapes, f)
  }

  function AllLeaves(s: Snapshot): multiset<Shape> { Total(s.zOrder, s.shapes, Leaves) }

  function AllIds(s: Snapshot): multiset<ShapeId> { Total(s.zOrder, s.shapes, Ids) }

  lemma SumsAreTheSame(children: seq<Shape>)
    ensures Sum(children, Leaves) == LeavesOfAll(children) && Sum(children, Ids) == IdsOfAll(children)
  {
  }

  lemma TotalConcat<T>(a: seq<ShapeId>, b: seq<ShapeId>, shapes: map<ShapeId, Shape>, f: Shape -> multiset<T>)
    ensures Total(a + b, shapes, f) == Total(a, shapes, f) + Total(b, shapes, f)
  {
    if a == [] {
      assert a + b == b;
    } else {
      assert (a + b)[1..] == a[1..] + b;
      TotalConcat(a[1..], b, shapes, f);
    }
  }

  lemma Shuffle<T>(a: multiset<T>, b: multiset<T>, c: multiset<T>)
    ensures a + (b + c) == (a + b) + c == b + (a + c)
  {
  }

  lemma TotalInsert<T>(z: seq<ShapeId>, pos: nat, mid: seq<ShapeId>, shapes: map<ShapeId, Shape>,
                       f: Shape -> multiset<T>)
    requires pos <= |z|
    ensures Total(z[..pos] + mid + z[pos..], shapes, f) == Total(z, shapes, f) + Total(mid, shapes, f)
  {
    TotalThree(z[..pos], mid, z[pos..], shapes, f);
    assert z[..pos] + z[pos..] == z;
  }

  lemma TotalThree<T>(a: seq<ShapeId>, b: seq<ShapeId>, c: seq<ShapeId>, shapes: map<ShapeId, Shape>,
                      f: Shape -> multiset<T>)
    ensures Total(a + b + c, shapes, f) == Total(a + c, shapes, f) + Total(b, shapes, f)
  {
    TotalConcat(a + b, c, shapes, f);
    TotalConcat(a, b, shapes, f);
    TotalConcat(a, c, shapes, f);
    Shuffle(Total(a, shapes, f), Total(b, shapes, f), Total(c, shapes, f));
  }

  lemma TotalCons<T>(x: ShapeId, z: seq<ShapeId>, shapes: map<ShapeId, Shape>, f: Shape -> multiset<T>)
    ensures Total([x] + z, shapes, f) == (if x in shapes then f(shapes[x]) else multiset{}) + Total(z, shapes, f)
  {
    assert ([x] + z)[1..] == z;
  }

  lemma TotalSplit<T>(z: seq<ShapeId>, m: set<ShapeId>, shapes: map<ShapeId, Shape>, f: Shape -> multiset<T>)
    ensures Total(z, shapes, f) == Total(Without(z, m), shapes, f) + Total(Only(z, m), shapes, f)
  {
    if z != [] {
      TotalSplit(z[1..], m, shapes, f);
      SplitStep(z[0], z[1..], Without(z[1..], m), Only(z[1..], m), m, shapes, f);
      assert z == [z[0]] + z[1..];
    }
  }

  lemma SplitStep<T>(x: ShapeId, rest: seq<ShapeId>, out: seq<ShapeId>, kept: seq<ShapeId>, m: set<ShapeId>,
                     shapes: map<ShapeId, Shape>, f: Shape -> multiset<T>)
    requires out == Without(rest, m) && kept == Only(rest, m)
    requires Total(rest, shapes, f) == Total(out, shapes, f) + Total(kept, shapes, f)
    ensures Total([x] + rest, shapes, f)
            == Total(Without([x] + rest, m), shapes, f) + Total(Only([x] + rest, m), shapes, f)
  {
    var one := if x in shapes then f(shapes[x]) else multiset{};
    FilterFirst(x, rest, m);
    TotalCons(x, rest, shapes, f);
    TotalCons(x, kept, shapes, f);
    TotalCons(x, out, shapes, f);
    Shuffle(one, Total(out, shapes, f), Total(kept, shapes, f));
    assert [] + kept == kept && [] + out == out;
  }

  lemma TotalFrame<T>(z: seq<ShapeId>, a: map<ShapeId, Shape>, b: map<ShapeId, Shape>, f: Shape -> multiset<T>)
    requires forall x :: x in z ==> x in a && x in b && a[x] == b[x]
    ensures Total(z, a, f) == Total(z, b, f)
  {
  }

  lemma TotalOfShapes<T>(z: seq<ShapeId>, shapes: map<ShapeId, Shape>, list: seq<Shape>, f: Shape -> multiset<T>)
    requires |list| == |z| && forall i :: 0 <= i < |z| ==> z[i] in shapes && shapes[z[i]] == list[i]
    ensures Total(z, shapes, f) == Sum(list, f)
  {
    if z != [] {
      TotalOfShapes(z[1..], shapes, list[1..], f);
    }
  }

  lemma TotalSingle<T>(id: ShapeId, shapes: map<ShapeId, Shape>, f: Shape -> multiset<T>)
    requires id in shapes
    ensures Total([id], shapes, f) == f(shapes[id])
  {
    assert [id][1..] == [];
  }

  lemma GroupParts<T>(s: Snapshot, ids: seq<ShapeId>, gid: ShapeId, f: Shape -> multiset<T>)
    requires Listed(s) && CanGroup(s, ids) && (gid !in s.shapes || gid in ids)
    ensures var t, m := Grouped(s, ids, gid), Members(s, ids); var rest := Without(s.zOrder, Elems(ids));
            && t.shapes[gid].Group? && Total(rest, t.shapes, f) == Total(rest, s.shapes, f)
            && Total(Only(s.zOrder, m), s.shapes, f) == Sum(t.shapes[gid].children, f)
  {
    var t, m, rest := Grouped(s, ids, gid), Members(s, ids), Without(s.zOrder, Elems(ids));
    OnlyElems(s.zOrder, m);
    WithoutElems(s.zOrder, Elems(ids));
    TotalFrame(rest, s.shapes, t.shapes, f);
    TotalOfShapes(Only(s.zOrder, m), s.shapes, t.shapes[gid].children, f);
  }

  /** Grouping trades the members' total for the group's. */
  lemma GroupTotal<T>(s: Snapshot, ids: seq<ShapeId>, gid: ShapeId, f: Shape -> multiset<T>)
    requires Listed(s) && CanGroup(s, ids) && (gid !in s.shapes || gid in ids)
    ensures var t := Grouped(s, ids, gid);
            t.shapes[gid].Group? &&
            Total(t.zOrder, t.shapes, f) + Sum(t.shapes[gid].children, f)
            == Total(s.zOrder, s.shapes, f) + f(t.shapes[gid])
  {
    var t, m := Grouped(s, ids, gid), Members(s, ids);
    GroupParts(s, ids, gid, f);
    WithoutSame(s.zOrder, m, Elems(ids));
    TotalSplit(s.zOrder, m, s.shapes, f);
    TotalInsert(Without(s.zOrder, Elems(ids)), GroupPosition(s, ids), [gid], t.shapes, f);
    TotalSingle(gid, t.shapes, f);
  }

  lemma UngroupParts<T>(s: Snapshot, gid: ShapeId, f: Shape -> multiset<T>)
    requires Listed(s) && CanUngroup(s, gid) && Proper(s, Dissolve(gid))
    ensures var t, g := Ungrouped(s, gid), s.shapes[gid]; var rest := Without(s.zOrder, {gid});
            && Total(rest, t.shapes, f) == Total(rest, s.shapes, f)
            && Total(ChildIds(g.children), t.shapes, f) == Sum(g.children, f)
  {
    var t, g, rest := Ungrouped(s, gid), s.shapes[gid], Without(s.zOrder, {gid});
    WithoutElems(s.zOrder, {gid});
    WithChildrenKeys(s.shapes - {gid}, g.children);
    TotalFrame(rest, s.shapes, t.shapes, f);
    TotalOfShapes(ChildIds(g.children), t.shapes, g.children, f);
  }

  /** Ungrouping trades it back. */
  lemma UngroupTotal<T>(s: Snapshot, gid: ShapeId, f: Shape -> multiset<T>)
    requires Listed(s) && CanUngroup(s, gid) && Proper(s, Dissolve(gid))
    ensures var t, g := Ungrouped(s, gid), s.shapes[gid];
            Total(t.zOrder, t.shapes, f) + f(g) == Total(s.zOrder, s.shapes, f) + Sum(g.children, f)
  {
    var t, rest, kids := Ungrouped(s, gid), Without(s.zOrder, {gid}), ChildIds(s.shapes[gid].children);
    RestAfterPosition(s.zOrder, gid);
    TotalInsert(rest, Position(s.zOrder, gid).value, kids, t.shapes, f);
    UngroupParts(s, gid, f);
    TotalWithoutOne(s, gid, f);
  }

  lemma TotalWithoutOne<T>(s: Snapshot, gid: ShapeId, f: Shape -> multiset<T>)
    requires Listed(s) && gid in s.shapes
    ensures Total(s.zOrder, s.shapes, f) == Total(Without(s.zOrder, {gid}), s.shapes, f) + f(s.shapes[gid])
  {
    OnlySelf(s.zOrder, gid);
    TotalSplit(s.zOrder, {gid}, s.shapes, f);
    TotalSingle(gid, s.shapes, f);
  }

  lemma OnlySelf(z: seq<ShapeId>, id: ShapeId)
    requires NoDup(z) && id in z
    ensures Only(z, {id}) == [id]
  {
    if z[0] == id {
      WithoutAbsent(z[1..], {id});
    } else {
      OnlySelf(z[1..], id);
    }
  }

  lemma Cancel<T>(a: multiset<T>, b: multiset<T>, x: multiset<T>, extra: multiset<T>)
    requires a + x == b + (extra + x)
    ensures a == b + extra
  {
    forall e ensures a[e] == (b + extra)[e] {
      assert (a + x)[e] == a[e] + x[e] && (b + (extra + x))[e] == b[e] + extra[e] + x[e];
    }
  }

  /** Grouping conserves the leaf shapes, and the nested ids gain exactly the group's. */
  lemma GroupingConserves(s: Snapshot, ids: seq<ShapeId>, gid: ShapeId)
    requires Listed(s) && CanGroup(s, ids) && (gid !in s.shapes || gid in ids)
    ensures AllLeaves(Grouped(s, ids, gid)) == AllLeaves(s)
    ensures AllIds(Grouped(s, ids, gid)) == AllIds(s) + multiset{gid}
  {
    var t := Grouped(s, ids, gid);
    var children := t.shapes[gid].children;
    GroupTotal(s, ids, gid, Leaves);
    GroupTotal(s, ids, gid, Ids);
    SumsAreTheSame(children);
    assert t.shapes[gid] == Group(gid, children);
    Cancel(AllLeaves(t), AllLeaves(s), LeavesOfAll(children), multiset{});
    Cancel(AllIds(t), AllIds(s), IdsOfAll(children), multiset{gid});
  }

  /** Ungrouping conserves the leaf shapes, and the nested ids lose exactly the group's. */
  lemma UngroupingConserves(s: Snapshot, gid: ShapeId)
    requires Listed(s) && CanUngroup(s, gid) && Proper(s, Dissolve(gid))
    ensures AllLeaves(s) == AllLeaves(Ungrouped(s, gid))
    ensures AllIds(s) == AllIds(Ungrouped(s, gid)) + multiset{gid}
  {
    var t := Ungrouped(s, gid);
    var children := s.shapes[gid].children;
    UngroupTotal(s, gid, Leaves);
    UngroupTotal(s, gid, Ids);
    SumsAreTheSame(children);
    assert s.shapes[gid] == Group(gid, children);
    Cancel(AllLeaves(s), AllLeaves(t), LeavesOfAll(children), multiset{});
    Cancel(AllIds(s), AllIds(t), IdsOfAll(children), multiset{gid});
  }

  // ---------------------------------------------------------------- fresh ids make every edit proper

  /** No id occurs twice, even through nested groups. */
  ghost predicate Unique(s: Snapshot) {
    forall id :: AllIds(s)[id] <= 1
  }

  ghost predicate Good(s: Snapshot) { Listed(s) && Unique(s) }

  /** Added shapes and new groups carry ids not used anywhere in the document; moved ids exist. */
  ghost predicate Fresh(s: Snapshot, e: Edit) {
    match e
    case Add(shape) => forall id :: AllIds(s)[id] + Ids(shape)[id] <= 1
    case MakeGroup(_, gid) => gid !in AllIds(s)
    case BringToFront(id) => id in s.shapes
    case SendToBack(id) => id in s.shapes
    case _ => true
  }

  lemma OwnId(sh: Shape)
    ensures sh.id in Ids(sh)
  {
  }

  lemma TotalIncludes(z: seq<ShapeId>, shapes: map<ShapeId, Shape>, id: ShapeId)
    requires id in z && id in shapes
    ensures Ids(shapes[id]) <= Total(z, shapes, Ids)
  {
    if z[0] != id {
      TotalIncludes(z[1..], shapes, id);
    }
  }

  lemma ListedIdsOccur(s: Snapshot, id: ShapeId)
    requires Listed(s) && id in s.shapes
    ensures id in AllIds(s)
  {
    TotalIncludes(s.zOrder, s.shapes, id);
    OwnId(s.shapes[id]);
  }

  lemma ChildIdsOccur(children: seq<Shape>)
    ensures forall x :: x in ChildIds(children) ==> x in IdsOfAll(children)
    ensures (forall x :: IdsOfAll(children)[x] <= 1) ==> NoDup(ChildIds(children))
  {
    if children != [] {
      ChildIdsOccur(children[1..]);
      OwnId(children[0]);
      assert ChildIds(children) == [children[0].id] + ChildIds(children[1..]);
      if forall x :: IdsOfAll(children)[x] <= 1 {
        forall x ensures IdsOfAll(children[1..])[x] <= 1 {
          assert IdsOfAll(children)[x] == Ids(children[0])[x] + IdsOfAll(children[1..])[x];
        }
        assert IdsOfAll(children)[children[0].id]
               == Ids(children[0])[children[0].id] + IdsOfAll(children[1..])[children[0].id];
        NoDupConcat([children[0].id], ChildIds(children[1..]));
      }
    }
  }

  /** The nested ids of a document around one of its groups. */
  lemma IdsAroundGroup(s: Snapshot, gid: ShapeId)
    requires Listed(s) && CanUngroup(s, gid)
    ensures AllIds(s) == Total(Without(s.zOrder, {gid}), s.shapes, Ids) + Ids(s.shapes[gid])
  {
    TotalSplit(s.zOrder, {gid}, s.shapes, Ids);
    OnlySelf(s.zOrder, gid);
    TotalSingle(gid, s.shapes, Ids);
  }

  lemma TwiceIsNotUnique(s: Snapshot, a: multiset<ShapeId>, b: multiset<ShapeId>, x: ShapeId)
    requires AllIds(s) == a + b && Unique(s) && x in b
    ensures x !in a
  {
    assert AllIds(s)[x] == a[x] + b[x];
  }

  lemma UniqueMakesUngroupProper(s: Snapshot, gid: ShapeId)
    requires Good(s) && CanUngroup(s, gid)
    ensures Proper(s, Dissolve(gid))
  {
    var g, rest := s.shapes[gid], Without(s.zOrder, {gid});
    var outer := Total(rest, s.shapes, Ids);
    IdsAroundGroup(s, gid);
    assert Ids(g) == multiset{gid} + IdsOfAll(g.children);
    forall x ensures IdsOfAll(g.children)[x] <= 1 {
      assert AllIds(s)[x] == outer[x] + Ids(g)[x];
    }
    ChildIdsOccur(g.children);
    WithoutElems(s.zOrder, {gid});
    forall x | x in ChildIds(g.children) ensures x == gid || x !in s.shapes {
      TwiceIsNotUnique(s, outer, Ids(g), x);
      if x != gid && x in s.shapes {
        OwnId(s.shapes[x]);
        TotalIncludes(rest, s.shapes, x);
      }
    }
  }

  lemma FreshIsProper(s: Snapshot, e: Edit)
    requires Good(s) && Fresh(s, e)
    ensures Proper(s, e)
  {
    match e
    case Add(shape) =>
      OwnId(shape);
      if shape.id in s.shapes { ListedIdsOccur(s, shape.id); }
    case MakeGroup(ids, gid) => if gid in s.shapes { ListedIdsOccur(s, gid); }
    case Dissolve(gid) => if CanUngroup(s, gid) { UniqueMakesUngroupProper(s, gid); }
    case _ =>
  }

  lemma SwapPartsTotal(pre: seq<ShapeId>, a: seq<ShapeId>, b: seq<ShapeId>, post: seq<ShapeId>,
                       shapes: map<ShapeId, Shape>)
    ensures Total(pre + a + b + post, shapes, Ids) == Total(pre + b + a + post, shapes, Ids)
  {
    TotalConcat(pre + a + b, post, shapes, Ids);
    TotalConcat(pre + b + a, post, shapes, Ids);
    TotalConcat(pre + a, b, shapes, Ids);
    TotalConcat(pre + b, a, shapes, Ids);
    TotalConcat(pre, a, shapes, Ids);
    TotalConcat(pre, b, shapes, Ids);
  }

  lemma SwapTotal(z: seq<ShapeId>, i: nat, shapes: map<ShapeId, Shape>)
    requires i + 1 < |z|
    ensures Total(Swapped(z, i, i + 1), shapes, Ids) == Total(z, shapes, Ids)
    ensures Swapped(z, i + 1, i) == Swapped(z, i, i + 1)
  {
    assert z == z[..i] + [z[i]] + [z[i + 1]] + z[i + 2..];
    assert Swapped(z, i, i + 1) == z[..i] + [z[i + 1]] + [z[i]] + z[i + 2..];
    SwapPartsTotal(z[..i], [z[i]], [z[i + 1]], z[i + 2..], shapes);
  }

  lemma RemoveIds(s: Snapshot, id: ShapeId)
    requires Listed(s)
    ensures AllIds(Removed(s, id)) <= AllIds(s)
    ensures id in s.shapes ==> AllIds(ToFront(s, id)) == AllIds(ToBack(s, id)) == AllIds(s)
  {
    var rest := Without(s.zOrder, {id});
    WithoutElems(s.zOrder, {id});
    TotalSplit(s.zOrder, {id}, s.shapes, Ids);
    TotalFrame(rest, s.shapes, s.shapes - {id}, Ids);
    if id in s.shapes {
      OnlySelf(s.zOrder, id);
      TotalConcat(rest, [id], s.shapes, Ids);
      TotalConcat([id], rest, s.shapes, Ids);
    }
  }

  lemma AddIds(s: Snapshot, shape: Shape)
    requires Listed(s) && shape.id !in s.shapes
    ensures AllIds(Added(s, shape)) == AllIds(s) + Ids(shape)
  {
    var t := Added(s, shape);
    TotalConcat(s.zOrder, [shape.id], t.shapes, Ids);
    TotalFrame(s.zOrder, s.shapes, t.shapes, Ids);
    TotalSingle(shape.id, t.shapes, Ids);
  }

  lemma UniqueShrinks(s: Snapshot, t: Snapshot)
    requires Unique(s) && AllIds(t) <= AllIds(s)
    ensures Unique(t)
  {
    forall id ensures AllIds(t)[id] <= 1 {
      assert AllIds(t)[id] <= AllIds(s)[id] <= 1;
    }
  }

  lemma UniqueGrows(s: Snapshot, t: Snapshot, added: multiset<ShapeId>)
    requires AllIds(t) == AllIds(s) + added && forall id :: AllIds(s)[id] + added[id] <= 1
    ensures Unique(t)
  {
    forall id ensures AllIds(t)[id] <= 1 {
      assert AllIds(t)[id] == AllIds(s)[id] + added[id];
    }
  }

  lemma MovesKeepUnique(s: Snapshot, id: ShapeId)
    requires Good(s) && id in s.shapes
    ensures Unique(ToFront(s, id)) && Unique(ToBack(s, id))
  {
    RemoveIds(s, id);
    UniqueShrinks(s, ToFront(s, id));
    UniqueShrinks(s, ToBack(s, id));
  }

  lemma SwapsKeepUnique(s: Snapshot, id: ShapeId)
    requires Good(s)
    ensures Unique(Forward(s, id).0) && Unique(Backward(s, id).0)
  {
    var pos := Position(s.zOrder, id);
    if pos.Some? && pos.value + 1 < |s.zOrder| { SwapTotal(s.zOrder, pos.value, s.shapes); }
    if pos.Some? && pos.value > 0 { SwapTotal(s.zOrder, pos.value - 1, s.shapes); }
    UniqueShrinks(s, Forward(s, id).0);
    UniqueShrinks(s, Backward(s, id).0);
  }

  lemma AddingKeepsUnique(s: Snapshot, shape: Shape)
    requires Good(s) && Fresh(s, Add(shape))
    ensures Unique(Added(s, shape))
  {
    FreshIsProper(s, Add(shape));
    AddIds(s, shape);
    UniqueGrows(s, Added(s, shape), Ids(shape));
  }

  lemma RemovingKeepsUnique(s: Snapshot, id: ShapeId)
    requires Good(s)
    ensures Unique(Removed(s, id))
  {
    RemoveIds(s, id);
    UniqueShrinks(s, Removed(s, id));
  }

  lemma GroupingKeepsUnique(s: Snapshot, ids: seq<ShapeId>, gid: ShapeId)
    requires Good(s) && CanGroup(s, ids) && Fresh(s, MakeGroup(ids, gid))
    ensures Unique(Grouped(s, ids, gid))
  {
    FreshIsProper(s, MakeGroup(ids, gid));
    GroupingConserves(s, ids, gid);
    forall id ensures AllIds(s)[id] + multiset{gid}[id] <= 1 {
      assert multiset{gid}[id] == if id == gid then 1 else 0;
    }
    UniqueGrows(s, Grouped(s, ids, gid), multiset{gid});
  }

  lemma UngroupingKeepsUnique(s: Snapshot, gid: ShapeId)
    requires Good(s) && CanUngroup(s, gid)
    ensures Unique(Ungrouped(s, gid))
  {
    FreshIsProper(s, Dissolve(gid));
    UngroupingConserves(s, gid);
    UniqueShrinks(s, Ungrouped(s, gid));
  }

  lemma FreshKeepsUnique(s: Snapshot, e: Edit)
    requires Good(s) && Fresh(s, e)
    ensures Unique(Edited(s, e))
  {
    match e
    case Add(shape) => AddingKeepsUnique(s, shape);
    case Remove(id) => RemovingKeepsUnique(s, id);
    case Clear =>
    case BringToFront(id) => MovesKeepUnique(s, id);
    case SendToBack(id) => MovesKeepUnique(s, id);
    case BringForward(id) => SwapsKeepUnique(s, id);
    case SendBackward(id) => SwapsKeepUnique(s, id);
    case MakeGroup(ids, gid) => if CanGroup(s, ids) { GroupingKeepsUnique(s, ids, gid); }
    case Dissolve(gid) => if CanUngroup(s, gid) { UngroupingKeepsUnique(s, gid); }
  }

  /** A fresh edit of a good document leaves it good. */
  lemma FreshKeepsGood(s: Snapshot, e: Edit)
    requires Good(s) && Fresh(s, e)
    ensures Good(Edited(s, e))
  {
    FreshIsProper(s, e);
    EditKeepsListedExactly(s, e);
    FreshKeepsUnique(s, e);
  }

  // ---------------------------------------------------------------- history

  const MAX_UNDO_HISTORY: nat := 50

  datatype Doc = Doc(current: Snapshot, undo: seq<Snapshot>, redo: seq<Snapshot>)

  function PushUndo(d: Doc): Doc {
    var undo := d.undo + [d.current];
    Doc(d.current, if |undo| > MAX_UNDO_HISTORY then undo[1..] else undo, [])
  }

  function Undo(d: Doc): Doc {
    if d.undo == [] then d
    else Doc(d.undo[|d.undo| - 1], d.undo[..|d.undo| - 1], d.redo + [d.current])
  }

  function Redo(d: Doc): Doc {
    if d.redo == [] then d
    else Doc(d.redo[|d.redo| - 1], d.undo + [d.current], d.redo[..|d.redo| - 1])
  }

  function Reverse(xs: seq<Snapshot>): seq<Snapshot> {
    if xs == [] then [] else [xs[|xs| - 1]] + Reverse(xs[..|xs| - 1])
  }

  /** Everything the two stacks and the document hold, oldest first; the document is at index `|undo|`. */
  function Timeline(d: Doc): seq<Snapshot> { d.undo + [d.current] + Reverse(d.redo) }

  /** Undo and redo leave the timeline alone and move the cursor by one, when there is somewhere to go. */
  lemma UndoRedoMoveACursor(d: Doc)
    ensures Timeline(Undo(d)) == Timeline(d) == Timeline(Redo(d))
    ensures |Undo(d).undo| == if d.undo == [] then 0 else |d.undo| - 1
    ensures |Redo(d).undo| == if d.redo == [] then |d.undo| else |d.undo| + 1
  {
    if d.undo != [] {
      var n := |d.undo| - 1;
      assert d.undo == d.undo[..n] + [d.undo[n]];
      assert (d.redo + [d.current])[..|d.redo|] == d.redo;
      assert Timeline(Undo(d)) == Timeline(d);
    }
    if d.redo != [] {
      var n := |d.redo| - 1;
      assert d.redo == d.redo[..n] + [d.redo[n]];
      assert (d.undo + [d.current])[..|d.undo|] == d.undo;
      assert Timeline(Redo(d)) == Timeline(d);
    }
  }

  function UndoTimes(d: Doc, k: nat): Doc decreases k { if k == 0 then d else UndoTimes(Undo(d), k - 1) }

  function RedoTimes(d: Doc, k: nat): Doc decreases k { if k == 0 then d else Redo(RedoTimes(d, k - 1)) }

  /** `k` undos show the snapshot `k` back, and `k` redos then restore the document, stacks and all. */
  lemma {:induction false} UndosThenRedos(d: Doc, k: nat)
    requires k <= |d.undo|
    ensures RedoTimes(UndoTimes(d, k), k) == d
    ensures k > 0 ==> UndoTimes(d, k).current == d.undo[|d.undo| - k]
    decreases k
  {
    if k > 0 {
      UndosThenRedos(Undo(d), k - 1);
      var u := UndoTimes(Undo(d), k - 1);
      assert RedoTimes(u, k) == Redo(RedoTimes(u, k - 1));
    }
  }

  /** A checkpointed edit is undone exactly, even when the checkpoint pushed the oldest one out. */
  lemma UndoRestoresCheckpoint(d: Doc, changed: Snapshot)
    ensures Undo(PushUndo(d).(current := changed)).current == d.current
    ensures |d.undo| < MAX_UNDO_HISTORY ==> Undo(PushUndo(d).(current := changed)).undo == d.undo
  {
    var undo := d.undo + [d.current];
    assert undo[..|d.undo|] == d.undo;
  }

  // ---------------------------------------------------------------- whole runs

  datatype Op = DoEdit(e: Edit) | Checkpoint | DoUndo | DoRedo

  function Apply(d: Doc, op: Op): Doc {
    match op
    case DoEdit(e) => d.(current := Edited(d.current, e))
    case Checkpoint => PushUndo(d)
    case DoUndo => Undo(d)
    case DoRedo => Redo(d)
  }

  function Run(d: Doc, ops: seq<Op>): Doc
    decreases |ops|
  {
    if ops == [] then d else Run(Apply(d, ops[0]), ops[1..])
  }

  const NEW_DOCUMENT := Doc(EMPTY, [], [])

  lemma {:induction false} HistoryStaysBounded(d: Doc, ops: seq<Op>)
    requires |d.undo| + |d.redo| <= MAX_UNDO_HISTORY
    ensures |Run(d, ops).undo| + |Run(d, ops).redo| <= MAX_UNDO_HISTORY
    decreases |ops|
  {
    if ops != [] {
      HistoryStaysBounded(Apply(d, ops[0]), ops[1..]);
    }
  }

  ghost predicate FreshRun(d: Doc, ops: seq<Op>)
    decreases |ops|
  {
    ops == [] || ((ops[0].DoEdit? ==> Fresh(d.current, ops[0].e)) && FreshRun(Apply(d, ops[0]), ops[1..]))
  }

  ghost predicate GoodDoc(d: Doc) {
    Good(d.current) && (forall x :: x in d.undo ==> Good(x)) && (forall x :: x in d.redo ==> Good(x))
  }

  lemma ApplyKeepsGood(d: Doc, op: Op)
    requires GoodDoc(d) && (op.DoEdit? ==> Fresh(d.current, op.e))
    ensures GoodDoc(Apply(d, op))
  {
    if op.DoEdit? {
      FreshKeepsGood(d.current, op.e);
    }
  }

  lemma {:induction false} FreshRunsStayGood(d: Doc, ops: seq<Op>)
    requires GoodDoc(d) && FreshRun(d, ops)
    ensures GoodDoc(Run(d, ops))
    decreases |ops|
  {
    if ops != [] {
      ApplyKeepsGood(d, ops[0]);
      FreshRunsStayGood(Apply(d, ops[0]), ops[1..]);
    }
  }

  /**
   In every state reachable with fresh ids, the document and every stored snapshot are good: the
   z-order lists exactly the shapes, and ids are unique through nested groups. In every reachable
   state the stacks hold at most 50 together.
   */
  lemma EveryRun(ops: seq<Op>)
    ensures |Run(NEW_DOCUMENT, ops).undo| + |Run(NEW_DOCUMENT, ops).redo| <= MAX_UNDO_HISTORY
    ensures FreshRun(NEW_DOCUMENT, ops) ==>
              forall x :: x in Timeline(Run(NEW_DOCUMENT, ops)) ==> Good(x)
  {
    HistoryStaysBounded(NEW_DOCUMENT, ops);
    if FreshRun(NEW_DOCUMENT, ops) {
      FreshRunsStayGood(NEW_DOCUMENT, ops);
      ReverseElems(Run(NEW_DOCUMENT, ops).redo);
    }
  }

  lemma ReverseElems(xs: seq<Snapshot>)
    ensures forall x :: x in Reverse(xs) ==> x in xs
  {
    if xs != [] {
      ReverseElems(xs[..|xs| - 1]);
    }
  }

  // ---------------------------------------------------------------- the imperative code

  class Document {
    var shapes: map<ShapeId, Shape>
    var zOrder: seq<ShapeId>
    var undoStack: seq<Snapshot>
    var redoStack: seq<Snapshot>

    ghost function View(): Doc
      reads this
    {
      Doc(Snapshot(shapes, zOrder), undoStack, redoStack)
    }

    constructor ()
      ensures View() == NEW_DOCUMENT
    {
      shapes, zOrder, undoStack, redoStack := map[], [], [], [];
    }

    method PushUndo()
      modifies this
      ensures View() == Apply(old(View()), Checkpoint)
      ensures shapes == old(shapes) && zOrder == old(zOrder) && redoStack == []
      ensures |old(undoStack)| < MAX_UNDO_HISTORY ==> undoStack == old(undoStack) + [Snapshot(shapes, zOrder)]
      ensures |old(undoStack)| >= MAX_UNDO_HISTORY ==> undoStack == old(undoStack)[1..] + [Snapshot(shapes, zOrder)]
    {
      undoStack := undoStack + [Snapshot(shapes, zOrder)];
      redoStack := [];
      if |undoStack| > MAX_UNDO_HISTORY {
        assert undoStack[1..] == old(undoStack)[1..] + [Snapshot(shapes, zOrder)];
        undoStack := undoStack[1..];
      }
    }

    method Undo() returns (done: bool)
      modifies this
      ensures View() == Apply(old(View()), DoUndo) && done == (old(undoStack) != [])
      ensures done ==>
                && old(undoStack) == undoStack + [Snapshot(shapes, zOrder)]
                && redoStack == old(redoStack) + [old(Snapshot(shapes, zOrder))]
      ensures !done ==> View() == old(View())
    {
      if undoStack == [] {
        return false;
      }
      var snapshot := undoStack[|undoStack| - 1];
      undoStack := undoStack[..|undoStack| - 1];
      redoStack := redoStack + [Snapshot(shapes, zOrder)];
      shapes, zOrder := snapshot.shapes, snapshot.zOrder;
      return true;
    }

    method Redo() returns (done: bool)
      modifies this
      ensures View() == Apply(old(View()), DoRedo) && done == (old(redoStack) != [])
      ensures done ==>
                && old(redoStack) == redoStack + [Snapshot(shapes, zOrder)]
                && undoStack == old(undoStack) + [old(Snapshot(shapes, zOrder))]
      ensures !done ==> View() == old(View())
    {
      if redoStack == [] {
        return false;
      }
      var snapshot := redoStack[|redoStack| - 1];
      redoStack := redoStack[..|redoStack| - 1];
      undoStack := undoStack + [Snapshot(shapes, zOrder)];
      shapes, zOrder := snapshot.shapes, snapshot.zOrder;
      return true;
    }

    method AddShape(shape: Shape)
      modifies this
      ensures View() == Apply(old(View()), DoEdit(Add(shape)))
      ensures zOrder == old(zOrder) + [shape.id] && shapes == old(shapes)[shape.id := shape]
      ensures undoStack == old(undoStack) && redoStack == old(redoStack)
    {
      zOrder := zOrder + [shape.id];
      shapes := shapes[shape.id := shape];
    }

    method RemoveShape(id: ShapeId) returns (removed: Option<Shape>)
      modifies this
      ensures View() == Apply(old(View()), DoEdit(Remove(id)))
      ensures id !in shapes && id !in zOrder && Without(zOrder, {id}) == Without(old(zOrder), {id})
      ensures forall k :: k in old(shapes) && k != id ==> k in shapes && shapes[k] == old(shapes)[k]
      ensures undoStack == old(undoStack) && redoStack == old(redoStack)
      ensures removed == if id in old(shapes) then Some(old(shapes)[id]) else None
    {
      RemovingKeepsOthers(View().current, id);
      zOrder := Without(zOrder, {id});
      removed := if id in shapes then Some(shapes[id]) else None;
      shapes := shapes - {id};
    }

    method Clear()
      modifies this
      ensures View() == Apply(old(View()), DoEdit(Edit.Clear))
      ensures shapes == map[] && zOrder == []
      ensures undoStack == old(undoStack) && redoStack == old(redoStack)
    {
      shapes, zOrder := map[], [];
    }

    method BringToFront(id: ShapeId)
      modifies this
      ensures View() == Apply(old(View()), DoEdit(Edit.BringToFront(id)))
      ensures zOrder != [] && zOrder[|zOrder| - 1] == id && id !in zOrder[..|zOrder| - 1]
      ensures Without(zOrder, {id}) == Without(old(zOrder), {id}) && shapes == old(shapes)
      ensures undoStack == old(undoStack) && redoStack == old(redoStack)
    {
      EndMoves(View().current, id);
      zOrder := Without(zOrder, {id});
      zOrder := zOrder + [id];
    }

    method SendToBack(id: ShapeId)
      modifies this
      ensures View() == Apply(old(View()), DoEdit(Edit.SendToBack(id)))
      ensures zOrder != [] && zOrder[0] == id && id !in zOrder[1..]
      ensures Without(zOrder, {id}) == Without(old(zOrder), {id}) && shapes == old(shapes)
      ensures undoStack == old(undoStack) && redoStack == old(redoStack)
    {
      EndMoves(View().current, id);
      zOrder := Without(zOrder, {id});
      zOrder := [id] + zOrder;
    }

    method BringForward(id: ShapeId) returns (moved: bool)
      modifies this
      ensures View() == Apply(old(View()), DoEdit(Edit.BringForward(id)))
      ensures moved == Forward(old(View()).current, id).1
      ensures moved <==> exists i: nat :: i < |old(zOrder)| - 1 && old(zOrder)[i] == id
      ensures moved ==> StepsUp(old(zOrder), zOrder, id) && Without(zOrder, {id}) == Without(old(zOrder), {id})
      ensures !moved ==> zOrder == old(zOrder)
      ensures shapes == old(shapes) && undoStack == old(undoStack) && redoStack == old(redoStack)
    {
      StepMoves(View().current, id);
      if Forward(View().current, id).1 {
        StepMovesKeepOthers(zOrder, Forward(View().current, id).0.zOrder, id);
      }
      var pos := Position(zOrder, id);
      if pos.Some? && pos.value < |zOrder| - 1 {
        zOrder := zOrder[pos.value := zOrder[pos.value + 1]][pos.value + 1 := zOrder[pos.value]];
        return true;
      }
      return false;
    }

    method SendBackward(id: ShapeId) returns (moved: bool)
      modifies this
      ensures View() == Apply(old(View()), DoEdit(Edit.SendBackward(id)))
      ensures moved == Backward(old(View()).current, id).1
      ensures moved <==> id in old(zOrder) && old(zOrder)[0] != id
      ensures moved ==> StepsDown(old(zOrder), zOrder, id) && Without(zOrder, {id}) == Without(old(zOrder), {id})
      ensures !moved ==> zOrder == old(zOrder)
      ensures shapes == old(shapes) && undoStack == old(undoStack) && redoStack == old(redoStack)
    {
      StepMoves(View().current, id);
      if Backward(View().current, id).1 {
        StepMovesKeepOthers(zOrder, Backward(View().current, id).0.zOrder, id);
      }
      var pos := Position(zOrder, id);
      if pos.Some? && pos.value > 0 {
        zOrder := zOrder[pos.value := zOrder[pos.value - 1]][pos.value - 1 := zOrder[pos.value]];
        return true;
      }
      return false;
    }

    /** The members in z-order with their positions. */
    method CollectMembers(ids: seq<ShapeId>) returns (found: seq<(nat, Shape)>)
      ensures Collected(zOrder, Members(View().current, ids), shapes, found)
    {
      found := [];
      ghost var m := Members(View().current, ids);
      for idx := 0 to |zOrder|
        invariant Collected(zOrder[..idx], m, shapes, found)
      {
        var zid := zOrder[idx];
        CollectStep(zOrder, idx, m, shapes, found);
        if zid in ids && zid in shapes {
          found := found + [(idx, shapes[zid])];
        }
      }
      assert zOrder[..|zOrder|] == zOrder;
    }

    /** Take the shapes with these ids out, one by one. */
    method RemoveMembers(ids: seq<ShapeId>)
      modifies this`shapes, this`zOrder
      ensures shapes == old(shapes) - Elems(ids) && zOrder == Without(old(zOrder), Elems(ids))
    {
      WithoutAbsent(zOrder, {});
      assert Elems(ids[..0]) == {};
      for i := 0 to |ids|
        invariant shapes == old(shapes) - Elems(ids[..i])
        invariant zOrder == Without(old(zOrder), Elems(ids[..i]))
      {
        assert Elems(ids[..i + 1]) == Elems(ids[..i]) + {ids[i]};
        WithoutWithout(old(zOrder), Elems(ids[..i]), {ids[i]});
        shapes := shapes - {ids[i]};
        zOrder := Without(zOrder, {ids[i]});
      }
      assert ids[..|ids|] == ids;
    }

    method GroupShapes(ids: seq<ShapeId>, gid: ShapeId) returns (r: Option<ShapeId>)
      modifies this
      ensures View() == Apply(old(View()), DoEdit(MakeGroup(ids, gid)))
      ensures r == if CanGroup(old(View()).current, ids) then Some(gid) else None
      ensures r.None? ==> View() == old(View())
      ensures r.Some? ==> shapes.Keys == old(shapes).Keys - Elems(ids) + {gid} && gid in zOrder
    {
      if |ids| < 2 {
        return None;
      }
      var found := CollectMembers(ids);
      if |found| < 2 {
        return None;
      }
      var front := found[|found| - 1].0;
      var children := seq(|found|, i requires 0 <= i < |found| => found[i].1);
      var group := Group(gid, children);
      ghost var before := View().current;
      CollectedGroup(before, ids, found, children);
      ghost var next := Grouped(before, ids, gid);
      RemoveMembers(ids);
      shapes := shapes[gid := group];
      var pos := if front < |ids| - 1 then 0 else front - (|ids| - 1);
      pos := if pos < |zOrder| then pos else |zOrder|;
      zOrder := Insert(zOrder, pos, gid);
      assert shapes == next.shapes && zOrder == next.zOrder;
      assert zOrder[pos] == gid;
      return Some(gid);
    }

    method UngroupShape(gid: ShapeId) returns (r: Option<seq<ShapeId>>)
      modifies this
      ensures View() == Apply(old(View()), DoEdit(Dissolve(gid)))
      ensures r == if CanUngroup(old(View()).current, gid) then Some(ChildIds(old(shapes)[gid].children)) else None
      ensures r.None? ==> View() == old(View())
    {
      if gid !in shapes || !shapes[gid].Group? {
        return None;
      }
      var children := shapes[gid].children;
      var pos := Position(zOrder, gid);
      if pos.None? {
        return None;
      }
      PositionFits(zOrder, gid);
      ghost var next := Ungrouped(View().current, gid);
      shapes := shapes - {gid};
      zOrder := Without(zOrder, {gid});
      ReturnChildren(children, pos.value);
      assert shapes == next.shapes && zOrder == next.zOrder;
      return Some(ChildIds(children));
    }

    /** Put the children back one by one, from position `pos` upwards. */
    method ReturnChildren(children: seq<Shape>, pos: nat)
      requires pos <= |zOrder|
      modifies this`shapes, this`zOrder
      ensures shapes == WithChildren(old(shapes), children)
      ensures zOrder == old(zOrder)[..pos] + ChildIds(children) + old(zOrder)[pos..]
    {
      ghost var base, rest := shapes, zOrder;
      for i := 0 to |children|
        invariant shapes == WithChildren(base, children[..i])
        invariant zOrder == rest[..pos] + ChildIds(children[..i]) + rest[pos..]
      {
        assert children[..i + 1][..i] == children[..i];
        assert ChildIds(children[..i + 1]) == ChildIds(children[..i]) + [children[i].id];
        shapes := shapes[children[i].id := children[i]];
        zOrder := Insert(zOrder, pos + i, children[i].id);
      }
      assert children[..|children|] == children;
    }
  }

  /** The members among `z` with their positions. */
  ghost predicate Collected(z: seq<ShapeId>, m: set<ShapeId>, shapes: map<ShapeId, Shape>, found: seq<(nat, Shape)>) {
    var kids := Only(z, m);
    && |found| == |kids|
    && (forall i :: 0 <= i < |kids| ==> kids[i] in shapes && found[i].1 == shapes[kids[i]])
    && (found != [] ==> LastMember(z, m, found[|found| - 1].0))
  }

  /** Two collected members make a group: these are its children, and this is its place. */
  lemma CollectedGroup(s: Snapshot, ids: seq<ShapeId>, found: seq<(nat, Shape)>, children: seq<Shape>)
    requires |ids| >= 2 && |found| >= 2 && Collected(s.zOrder, Members(s, ids), s.shapes, found)
    requires |children| == |found| && forall i :: 0 <= i < |found| ==> children[i] == found[i].1
    ensures CanGroup(s, ids) && children == ShapesOf(s, Only(s.zOrder, Members(s, ids)))
    ensures var front, n := found[|found| - 1].0, |Without(s.zOrder, Elems(ids))|;
            var pos := if front < |ids| - 1 then 0 else front - (|ids| - 1);
            GroupPosition(s, ids) == if pos < n then pos else n
  {
    MembersListed(s, ids);
    assert found[|found| - 1].0 == Frontmost(s.zOrder, Members(s, ids));
  }

  lemma OnlyStep(z: seq<ShapeId>, i: nat, m: set<ShapeId>)
    requires i < |z|
    ensures z[..i + 1] == z[..i] + [z[i]]
    ensures Only(z[..i + 1], m) == if z[i] in m then Only(z[..i], m) + [z[i]] else Only(z[..i], m)
  {
    assert z[..i + 1] == z[..i] + [z[i]];
    WithoutConcat(z[..i], [z[i]], m);
  }

  lemma CollectNone(z: seq<ShapeId>, i: nat, m: set<ShapeId>, shapes: map<ShapeId, Shape>, found: seq<(nat, Shape)>)
    requires i < |z| && z[i] !in m && Collected(z[..i], m, shapes, found)
    ensures Collected(z[..i + 1], m, shapes, found)
  {
    OnlyStep(z, i, m);
    if found != [] {
      LastMemberStays(z, i, m, found[|found| - 1].0);
    }
  }

  lemma LastMemberStays(z: seq<ShapeId>, i: nat, m: set<ShapeId>, last: nat)
    requires i < |z| && z[i] !in m && LastMember(z[..i], m, last)
    ensures LastMember(z[..i + 1], m, last)
  {
    assert forall j :: 0 <= j < i ==> z[..i + 1][j] == z[..i][j];
  }

  lemma CollectOne(z: seq<ShapeId>, i: nat, m: set<ShapeId>, shapes: map<ShapeId, Shape>, found: seq<(nat, Shape)>)
    requires i < |z| && z[i] in m && z[i] in shapes && Collected(z[..i], m, shapes, found)
    ensures Collected(z[..i + 1], m, shapes, found + [(i, shapes[z[i]])])
  {
    OnlyStep(z, i, m);
  }

  lemma CollectStep(z: seq<ShapeId>, i: nat, m: set<ShapeId>, shapes: map<ShapeId, Shape>, found: seq<(nat, Shape)>)
    requires i < |z| && Collected(z[..i], m, shapes, found)
    ensures z[i] !in m ==> Collected(z[..i + 1], m, shapes, found)
    ensures z[i] in m && z[i] in shapes ==> Collected(z[..i + 1], m, shapes, found + [(i, shapes[z[i]])])
  {
    if z[i] !in m {
      CollectNone(z, i, m, shapes, found);
    } else if z[i] in shapes {
      CollectOne(z, i, m, shapes, found);
    }
  }

  ghost predicate LastMember(z: seq<ShapeId>, m: set<ShapeId>, i: nat) {
    i < |z| && z[i] in m && forall j :: i < j < |z| ==> z[j] !in m
  }
}
