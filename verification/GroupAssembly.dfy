/**
 Reconstruction of nested groups from flat elements with group paths, as when importing an
 Excalidraw library.

 A path lists an element's group ids, innermost first. The recursive function is the
 specification; the method is the imperative code with its `handled` marks.
 */
module GroupAssembly {
  import opened Basics

  type GroupId = string

  /** A converted element, named by its shape's id. */
  datatype Entry = Entry(item: nat, path: seq<GroupId>)

  datatype Tree = Item(id: nat) | Group(children: seq<Tree>)

  // ---------------------------------------------------------------- the specification

  /** The element's outermost group is `outer`. */
  predicate InGroup(e: Entry, outer: GroupId) {
    e.path != [] && e.path[|e.path| - 1] == outer
  }

  /** The entries of one outermost group, that id peeled off. */
  function Bucket(entries: seq<Entry>, outer: GroupId): seq<Entry> {
    if entries == [] then []
    else if InGroup(entries[0], outer) then [Peeled(entries[0])] + Bucket(entries[1..], outer)
    else Bucket(entries[1..], outer)
  }

  function Peeled(e: Entry): Entry
    requires e.path != []
  {
    e.(path := e.path[..|e.path| - 1])
  }

  function Others(entries: seq<Entry>, outer: GroupId): seq<Entry> {
    if entries == [] then []
    else if InGroup(entries[0], outer) then Others(entries[1..], outer)
    else [entries[0]] + Others(entries[1..], outer)
  }

  function PathTotal(entries: seq<Entry>): nat {
    if entries == [] then 0 else |entries[0].path| + PathTotal(entries[1..])
  }

  /** The longest path: it shrinks with every level of recursion. */
  function MaxPath(entries: seq<Entry>): (m: nat)
    ensures forall e :: e in entries ==> |e.path| <= m
    ensures m > 0 ==> exists e :: e in entries && |e.path| == m
  {
    if entries == [] then 0
    else
      var rest := MaxPath(entries[1..]);
      assert entries[0] in entries && forall e :: e in entries ==> e == entries[0] || e in entries[1..];
      if |entries[0].path| > rest then |entries[0].path| else rest
  }

  lemma Shrinks(entries: seq<Entry>, outer: GroupId)
    ensures |Others(entries, outer)| <= |entries| && PathTotal(Others(entries, outer)) <= PathTotal(entries)
    ensures PathTotal(Bucket(entries, outer)) <= PathTotal(entries)
    ensures entries != [] && InGroup(entries[0], outer) ==>
              PathTotal(Bucket(entries, outer)) < PathTotal(entries) && |Others(entries, outer)| < |entries|
  {
    if entries != [] {
      Shrinks(entries[1..], outer);
      var e := entries[0];
      var b, o := Bucket(entries[1..], outer), Others(entries[1..], outer);
      assert ([e] + o)[1..] == o;
      if InGroup(e, outer) {
        assert ([Peeled(e)] + b)[1..] == b;
      }
    }
  }

  lemma PeelsTo(h: Entry, e: Entry, outer: GroupId)
    ensures InGroup(h, outer) && Peeled(h) == e <==> h == Entry(e.item, e.path + [outer])
  {
    if InGroup(h, outer) {
      assert h.path == h.path[..|h.path| - 1] + [outer];
    }
    assert (e.path + [outer])[..|e.path|] == e.path;
  }

  lemma {:induction false} BucketElems(entries: seq<Entry>, outer: GroupId)
    ensures forall e :: e in Bucket(entries, outer) <==> Entry(e.item, e.path + [outer]) in entries
    ensures forall e :: e in Others(entries, outer) <==> e in entries && !InGroup(e, outer)
  {
    if entries != [] {
      BucketElems(entries[1..], outer);
      forall e ensures e in Bucket(entries, outer) <==> Entry(e.item, e.path + [outer]) in entries {
        PeelsTo(entries[0], e, outer);
      }
    }
  }

  lemma BucketMaxPath(entries: seq<Entry>, outer: GroupId)
    requires Bucket(entries, outer) != []
    ensures MaxPath(Bucket(entries, outer)) < MaxPath(entries)
  {
    BucketElems(entries, outer);
    var b := Bucket(entries, outer);
    assert b[0] in b;
    assert Entry(b[0].item, b[0].path + [outer]) in entries;
    if MaxPath(b) > 0 {
      var e :| e in b && |e.path| == MaxPath(b);
      assert Entry(e.item, e.path + [outer]) in entries;
    }
  }

  /** A group of one is collapsed to its child. */
  function Wrap(children: seq<Tree>): Tree {
    if |children| == 1 then children[0] else Group(children)
  }

  function Assemble(entries: seq<Entry>): seq<Tree>
    decreases PathTotal(entries), |entries|
  {
    if entries == [] then []
    else if entries[0].path == [] then [Item(entries[0].item)] + Assemble(entries[1..])
    else
      var outer := entries[0].path[|entries[0].path| - 1];
      Shrinks(entries, outer);
      [Wrap(Assemble(Bucket(entries, outer)))] + Assemble(Others(entries, outer))
  }

  // ---------------------------------------------------------------- leaves are conserved

  function Leaves(t: Tree): multiset<nat>
    decreases t, 1
  {
    match t
    case Item(id) => multiset{id}
    case Group(children) => LeavesOfAll(children)
  }

  function LeavesOfAll(ts: seq<Tree>): multiset<nat>
    decreases ts, 0
  {
    if ts == [] then multiset{} else Leaves(ts[0]) + LeavesOfAll(ts[1..])
  }

  function Items(entries: seq<Entry>): multiset<nat> {
    if entries == [] then multiset{} else multiset{entries[0].item} + Items(entries[1..])
  }

  lemma ItemsSplit(entries: seq<Entry>, outer: GroupId)
    ensures Items(entries) == Items(Bucket(entries, outer)) + Items(Others(entries, outer))
  {
    if entries != [] {
      ItemsSplit(entries[1..], outer);
      var e, b, o := entries[0], Bucket(entries[1..], outer), Others(entries[1..], outer);
      if InGroup(e, outer) {
      } else {
      }
    }
  }

  lemma WrapLeaves(children: seq<Tree>)
    ensures Leaves(Wrap(children)) == LeavesOfAll(children)
  {
    if |children| == 1 {
      assert children[1..] == [];
    }
  }

  /** The leaves of the assembled forest are the input shapes, each as often as it was given. */
  lemma {:induction false} LeavesConserved(entries: seq<Entry>)
    ensures LeavesOfAll(Assemble(entries)) == Items(entries)
    decreases PathTotal(entries), |entries|
  {
    if entries != [] {
      if entries[0].path == [] {
        LeavesConserved(entries[1..]);
      } else {
        var outer := entries[0].path[|entries[0].path| - 1];
        Shrinks(entries, outer);
        LeavesConserved(Bucket(entries, outer));
        LeavesConserved(Others(entries, outer));
        ItemsSplit(entries, outer);
        WrapLeaves(Assemble(Bucket(entries, outer)));
      }
    }
  }

  // ---------------------------------------------------------------- no redundant groups

  /** Every group in the tree, at every depth, has at least two children. */
  predicate Branching(t: Tree)
    decreases t, 1
  {
    match t
    case Item(_) => true
    case Group(children) => |children| >= 2 && AllBranching(children)
  }

  predicate AllBranching(ts: seq<Tree>)
    decreases ts, 0
  {
    ts == [] || (Branching(ts[0]) && AllBranching(ts[1..]))
  }

  lemma {:induction false} GroupsBranch(entries: seq<Entry>)
    ensures AllBranching(Assemble(entries)) && (entries != [] ==> Assemble(entries) != [])
    decreases PathTotal(entries), |entries|
  {
    if entries != [] {
      if entries[0].path == [] {
        GroupsBranch(entries[1..]);
      } else {
        var outer := entries[0].path[|entries[0].path| - 1];
        Shrinks(entries, outer);
        GroupsBranch(Bucket(entries, outer));
        GroupsBranch(Others(entries, outer));
      }
    }
  }

  // ---------------------------------------------------------------- the stacking order is preserved

  /** Item `x` is given before item `y`. */
  ghost predicate Given(entries: seq<Entry>, x: nat, y: nat) {
    exists i, j :: 0 <= i < j < |entries| && entries[i].item == x && entries[j].item == y
  }

  /** Some leaf of `a` is given before every leaf of `b`: for distinct inputs, `a` has the earlier first leaf. */
  ghost predicate Before(entries: seq<Entry>, a: Tree, b: Tree) {
    exists x :: x in Leaves(a) && Leads(entries, x, Leaves(b))
  }

  ghost predicate Leads(entries: seq<Entry>, x: nat, leaves: multiset<nat>) {
    forall y :: y in leaves ==> Given(entries, x, y)
  }

  /** At every depth, the trees stand in the order of their first leaves. */
  ghost predicate InOrder(entries: seq<Entry>, t: Tree)
    decreases t, 1
  {
    match t
    case Item(_) => true
    case Group(children) => AllInOrder(entries, children)
  }

  ghost predicate AllInOrder(entries: seq<Entry>, ts: seq<Tree>)
    decreases ts, 0
  {
    ts == [] ||
    (InOrder(entries, ts[0]) && AllInOrder(entries, ts[1..]) && forall b :: b in ts[1..] ==> Before(entries, ts[0], b))
  }

  ghost predicate OrderWithin(part: seq<Entry>, entries: seq<Entry>) {
    forall x, y :: Given(part, x, y) ==> Given(entries, x, y)
  }

  lemma BeforeWithin(part: seq<Entry>, entries: seq<Entry>, a: Tree, b: Tree)
    requires OrderWithin(part, entries) && Before(part, a, b)
    ensures Before(entries, a, b)
  {
    var x :| x in Leaves(a) && Leads(part, x, Leaves(b));
    assert Leads(entries, x, Leaves(b));
  }

  lemma InOrderWithin(part: seq<Entry>, entries: seq<Entry>, t: Tree)
    requires OrderWithin(part, entries) && InOrder(part, t)
    ensures InOrder(entries, t)
    decreases t, 1
  {
    match t
    case Item(_) =>
    case Group(children) => AllInOrderWithin(part, entries, children);
  }

  lemma AllInOrderWithin(part: seq<Entry>, entries: seq<Entry>, ts: seq<Tree>)
    requires OrderWithin(part, entries) && AllInOrder(part, ts)
    ensures AllInOrder(entries, ts)
    decreases ts, 0
  {
    if ts != [] {
      InOrderWithin(part, entries, ts[0]);
      AllInOrderWithin(part, entries, ts[1..]);
      forall b | b in ts[1..] ensures Before(entries, ts[0], b) {
        BeforeWithin(part, entries, ts[0], b);
      }
    }
  }

  lemma GivenInTail(entries: seq<Entry>, x: nat, y: nat)
    requires entries != [] && Given(entries[1..], x, y)
    ensures Given(entries, x, y)
  {
    var tail := entries[1..];
    var i, j :| 0 <= i < j < |tail| && tail[i].item == x && tail[j].item == y;
    assert entries[i + 1] == tail[i] && entries[j + 1] == tail[j];
  }

  lemma HeadGivenFirst(entries: seq<Entry>, e: Entry)
    requires entries != [] && e in entries[1..]
    ensures Given(entries, entries[0].item, e.item)
  {
    var j :| 0 <= j < |entries[1..]| && entries[1..][j] == e;
    assert entries[j + 1] == e;
  }

  /** A head put before a part of the tail keeps the order of the whole. */
  lemma GivenAfterHead(entries: seq<Entry>, head: Entry, part: seq<Entry>, x: nat, y: nat)
    requires entries != [] && head.item == entries[0].item && OrderWithin(part, entries[1..])
    requires forall e :: e in part ==> exists f :: f in entries[1..] && f.item == e.item
    requires Given([head] + part, x, y)
    ensures Given(entries, x, y)
  {
    var all := [head] + part;
    var i, j :| 0 <= i < j < |all| && all[i].item == x && all[j].item == y;
    assert all[j] == part[j - 1] && part[j - 1] in part;
    if i == 0 {
      var f :| f in entries[1..] && f.item == y;
      HeadGivenFirst(entries, f);
    } else {
      assert all[i] == part[i - 1] && Given(part, x, y);
      GivenInTail(entries, x, y);
    }
  }

  lemma {:induction false} PartsKeepOrder(entries: seq<Entry>, outer: GroupId)
    ensures OrderWithin(Bucket(entries, outer), entries) && OrderWithin(Others(entries, outer), entries)
  {
    if entries != [] {
      var tail, b, o := entries[1..], Bucket(entries[1..], outer), Others(entries[1..], outer);
      PartsKeepOrder(tail, outer);
      BucketElems(tail, outer);
      forall x, y | Given(Bucket(entries, outer), x, y) ensures Given(entries, x, y) {
        if InGroup(entries[0], outer) {
          assert forall e :: e in b ==> Entry(e.item, e.path + [outer]) in tail;
          GivenAfterHead(entries, Peeled(entries[0]), b, x, y);
        } else {
          GivenInTail(entries, x, y);
        }
      }
      forall x, y | Given(Others(entries, outer), x, y) ensures Given(entries, x, y) {
        if InGroup(entries[0], outer) {
          GivenInTail(entries, x, y);
        } else {
          GivenAfterHead(entries, entries[0], o, x, y);
        }
      }
    }
  }

  lemma ItemsAreGiven(entries: seq<Entry>, y: nat)
    requires y in Items(entries)
    ensures exists e :: e in entries && e.item == y
  {
    if entries[0].item != y {
      ItemsAreGiven(entries[1..], y);
      var e :| e in entries[1..] && e.item == y;
      assert e in entries;
    }
  }

  lemma LeavesOfMember(ts: seq<Tree>, t: Tree, y: nat)
    requires t in ts && y in Leaves(t)
    ensures y in LeavesOfAll(ts)
  {
    if t != ts[0] {
      LeavesOfMember(ts[1..], t, y);
    }
  }

  /** A first tree with the first input's leaf stands before the trees of the inputs after it. */
  lemma FirstTreeLeads(entries: seq<Entry>, first: Tree, rest: seq<Entry>)
    requires entries != [] && entries[0].item in Leaves(first) && forall e :: e in rest ==> e in entries[1..]
    ensures forall b :: b in Assemble(rest) ==> Before(entries, first, b)
  {
    forall b | b in Assemble(rest) ensures Before(entries, first, b) {
      forall y | y in Leaves(b) ensures Given(entries, entries[0].item, y) {
        LeavesOfMember(Assemble(rest), b, y);
        LeavesConserved(rest);
        ItemsAreGiven(rest, y);
        var e :| e in rest && e.item == y;
        HeadGivenFirst(entries, e);
      }
      assert Leads(entries, entries[0].item, Leaves(b));
    }
  }

  lemma TailKeepsOrder(entries: seq<Entry>)
    requires entries != []
    ensures OrderWithin(entries[1..], entries)
  {
    forall x, y | Given(entries[1..], x, y) ensures Given(entries, x, y) {
      GivenInTail(entries, x, y);
    }
  }

  lemma FirstGroupHasFirst(entries: seq<Entry>, outer: GroupId)
    requires entries != [] && InGroup(entries[0], outer)
    ensures entries[0].item in Leaves(Wrap(Assemble(Bucket(entries, outer))))
  {
    var b := Bucket(entries, outer);
    LeavesConserved(b);
    WrapLeaves(Assemble(b));
    assert b != [] && b[0].item == entries[0].item;
  }

  lemma WrappedInOrder(entries: seq<Entry>, children: seq<Tree>)
    requires AllInOrder(entries, children)
    ensures InOrder(entries, Wrap(children))
  {
  }

  /** However deep, siblings stand in the order in which the first shape of each was given. */
  lemma {:induction false} OrderPreserved(entries: seq<Entry>)
    ensures AllInOrder(entries, Assemble(entries))
    decreases PathTotal(entries), |entries|
  {
    if entries != [] {
      if entries[0].path == [] {
        OrderPreserved(entries[1..]);
        TailKeepsOrder(entries);
        AllInOrderWithin(entries[1..], entries, Assemble(entries[1..]));
        FirstTreeLeads(entries, Item(entries[0].item), entries[1..]);
        FirstThenRest(entries, Item(entries[0].item), Assemble(entries[1..]));
      } else {
        var outer := entries[0].path[|entries[0].path| - 1];
        var b, o := Bucket(entries, outer), Others(entries, outer);
        Shrinks(entries, outer);
        PartsKeepOrder(entries, outer);
        OrderPreserved(b);
        AllInOrderWithin(b, entries, Assemble(b));
        WrappedInOrder(entries, Assemble(b));
        OrderPreserved(o);
        AllInOrderWithin(o, entries, Assemble(o));
        FirstGroupHasFirst(entries, outer);
        BucketElems(entries[1..], outer);
        FirstTreeLeads(entries, Wrap(Assemble(b)), o);
        FirstThenRest(entries, Wrap(Assemble(b)), Assemble(o));
      }
    }
  }

  lemma FirstThenRest(entries: seq<Entry>, first: Tree, rest: seq<Tree>)
    requires InOrder(entries, first) && AllInOrder(entries, rest)
    requires forall b :: b in rest ==> Before(entries, first, b)
    ensures AllInOrder(entries, [first] + rest)
  {
    assert ([first] + rest)[1..] == rest;
  }

  // ---------------------------------------------------------------- the hierarchy is preserved

  predicate IsSuffix(s: seq<GroupId>, path: seq<GroupId>) {
    |s| <= |path| && path[|path| - |s|..] == s
  }

  /** The items whose path ends in `s`: the members, direct or nested, of one group. */
  ghost function Class(entries: seq<Entry>, s: seq<GroupId>): set<nat> {
    set e | e in entries && IsSuffix(s, e.path) :: e.item
  }

  ghost function LeafSet(t: Tree): set<nat> { set x | x in Leaves(t) }

  /** The leaf sets of all groups of a tree. */
  ghost function NodeSets(t: Tree): set<set<nat>>
    decreases t, 1
  {
    match t
    case Item(_) => {}
    case Group(children) => {LeafSet(t)} + NodeSetsOfAll(children)
  }

  ghost function NodeSetsOfAll(ts: seq<Tree>): set<set<nat>>
    decreases ts, 0
  {
    if ts == [] then {} else NodeSets(ts[0]) + NodeSetsOfAll(ts[1..])
  }

  ghost predicate Plural(l: set<nat>) {
    exists x, y :: x in l && y in l && x != y
  }

  /** The input shapes have different ids. */
  ghost predicate Distinct(entries: seq<Entry>) {
    forall x :: Items(entries)[x] <= 1
  }

  lemma {:induction false} ItemsElems(entries: seq<Entry>)
    ensures forall x :: x in Items(entries) <==> exists e :: e in entries && e.item == x
  {
    forall x ensures x in Items(entries) <==> exists e :: e in entries && e.item == x {
      ItemOccurs(entries, x);
    }
  }

  lemma {:induction false} ItemOccurs(entries: seq<Entry>, x: nat)
    ensures x in Items(entries) <==> exists e :: e in entries && e.item == x
  {
    if entries != [] {
      var head, tail := entries[0], entries[1..];
      assert entries == [head] + tail;
      ItemOccurs(tail, x);
      if head.item == x {
        assert head in entries;
      } else if x in Items(tail) {
        var e :| e in tail && e.item == x;
        assert e in entries;
      }
      assert forall e :: e in entries && e.item == x && e != head ==> e in tail;
    }
  }

  lemma DistinctParts(entries: seq<Entry>, outer: GroupId)
    requires Distinct(entries)
    ensures Distinct(Bucket(entries, outer)) && Distinct(Others(entries, outer))
  {
    ItemsSplit(entries, outer);
    forall x ensures Items(Bucket(entries, outer))[x] <= 1 && Items(Others(entries, outer))[x] <= 1 {
      assert Items(entries)[x] == Items(Bucket(entries, outer))[x] + Items(Others(entries, outer))[x];
    }
  }

  lemma SuffixUnderOuter(s: seq<GroupId>, path: seq<GroupId>, outer: GroupId)
    ensures IsSuffix(s + [outer], path + [outer]) <==> IsSuffix(s, path)
  {
    if |s| <= |path| {
      var k := |path| - |s|;
      assert (path + [outer])[k..] == path[k..] + [outer];
      assert (s + [outer])[..|s|] == s && (path[k..] + [outer])[..|s|] == path[k..];
    }
  }

  lemma SuffixEnds(s: seq<GroupId>, path: seq<GroupId>)
    requires s != [] && IsSuffix(s, path)
    ensures path != [] && path[|path| - 1] == s[|s| - 1] && path == path[..|path| - 1] + [s[|s| - 1]]
  {
    assert path[|path| - |s|..][|s| - 1] == path[|path| - 1];
  }

  /** The members of a group inside `outer`, seen from the peeled entries. */
  lemma ClassOfBucket(entries: seq<Entry>, outer: GroupId, s: seq<GroupId>)
    ensures Class(entries, s + [outer]) == Class(Bucket(entries, outer), s)
  {
    var b := Bucket(entries, outer);
    BucketElems(entries, outer);
    forall x | x in Class(entries, s + [outer]) ensures x in Class(b, s) {
      var e :| e in entries && IsSuffix(s + [outer], e.path) && e.item == x;
      SuffixEnds(s + [outer], e.path);
      var inner := e.path[..|e.path| - 1];
      SuffixUnderOuter(s, inner, outer);
      assert Entry(x, inner) in b;
    }
    forall x | x in Class(b, s) ensures x in Class(entries, s + [outer]) {
      var e :| e in b && IsSuffix(s, e.path) && e.item == x;
      SuffixUnderOuter(s, e.path, outer);
      assert Entry(x, e.path + [outer]) in entries;
    }
  }

  /** Groups outside `outer` lie among the other entries. */
  lemma ClassOfOthers(entries: seq<Entry>, outer: GroupId, s: seq<GroupId>)
    requires s != []
    ensures Class(Others(entries, outer), s) == if s[|s| - 1] == outer then {} else Class(entries, s)
  {
    BucketElems(entries, outer);
    forall e | e in entries && IsSuffix(s, e.path) ensures InGroup(e, outer) <==> s[|s| - 1] == outer {
      SuffixEnds(s, e.path);
    }
  }

  lemma WholeClass(entries: seq<Entry>, x: nat)
    ensures x in Class(entries, []) <==> x in Items(entries)
  {
    ItemsElems(entries);
    if e :| e in entries && e.item == x {
      assert IsSuffix([], e.path);
    }
  }

  lemma SomeLeaf(t: Tree) returns (x: nat)
    requires Branching(t)
    ensures x in Leaves(t)
    decreases t
  {
    match t
    case Item(id) => x := id;
    case Group(children) => x := SomeLeaf(children[0]);
  }

  /** Two trees hold two different leaves when no leaf is repeated. */
  lemma TwoTreesArePlural(ts: seq<Tree>, l: set<nat>)
    requires |ts| >= 2 && AllBranching(ts) && (forall x :: LeavesOfAll(ts)[x] <= 1) && l == set x | x in LeavesOfAll(ts)
    ensures Plural(l)
  {
    var x := SomeLeaf(ts[0]);
    var y := SomeLeaf(ts[1]);
    assert LeavesOfAll(ts) == Leaves(ts[0]) + (Leaves(ts[1]) + LeavesOfAll(ts[1..][1..]));
    assert LeavesOfAll(ts)[x] >= Leaves(ts[0])[x] + Leaves(ts[1])[x];
    assert x in l && y in l;
  }

  /** What `Wrap` adds to the groups of the children: the whole, when it is not a single item. */
  lemma WrapNodeSets(children: seq<Tree>, l: set<nat>)
    requires children != [] && AllBranching(children) && forall x :: LeavesOfAll(children)[x] <= 1
    ensures var all := set x | x in LeavesOfAll(children);
            l in NodeSets(Wrap(children)) <==> l in NodeSetsOfAll(children) || (l == all && Plural(all))
  {
    var all := set x | x in LeavesOfAll(children);
    WrapLeaves(children);
    assert LeafSet(Wrap(children)) == all;
    if |children| == 1 {
      assert children == [children[0]];
      assert NodeSetsOfAll(children) == NodeSets(children[0]);
      if children[0].Item? {
        assert !Plural(all);
      }
    } else {
      TwoTreesArePlural(children, all);
    }
  }

  /** The groups of the assembled forest are exactly the plural group classes of the input. */
  ghost predicate MirrorsGroups(entries: seq<Entry>) {
    forall l :: l in NodeSetsOfAll(Assemble(entries)) <==> Plural(l) && exists s :: s != [] && l == Class(entries, s)
  }

  lemma ForestLeafSet(entries: seq<Entry>)
    ensures (set x | x in LeavesOfAll(Assemble(entries))) == Class(entries, [])
    ensures Distinct(entries) ==> forall x :: LeavesOfAll(Assemble(entries))[x] <= 1
  {
    LeavesConserved(entries);
    forall x ensures x in LeavesOfAll(Assemble(entries)) <==> x in Class(entries, []) {
      WholeClass(entries, x);
    }
  }

  ghost predicate IsClass(b: seq<Entry>, l: set<nat>) { exists s :: l == Class(b, s) }

  ghost predicate IsInnerClass(b: seq<Entry>, l: set<nat>) { exists s :: s != [] && l == Class(b, s) }

  lemma WholeOrInner(b: seq<Entry>, l: set<nat>)
    ensures IsClass(b, l) <==> l == Class(b, []) || IsInnerClass(b, l)
  {
    if IsClass(b, l) {
      var s :| l == Class(b, s);
      assert s == [] || IsInnerClass(b, l);
    }
    if IsInnerClass(b, l) {
      var s :| s != [] && l == Class(b, s);
    }
  }

  lemma WrappedBucket(b: seq<Entry>, l: set<nat>)
    requires b != [] && Distinct(b) && MirrorsGroups(b)
    ensures l in NodeSets(Wrap(Assemble(b))) <==> Plural(l) && IsClass(b, l)
  {
    ForestLeafSet(b);
    GroupsBranch(b);
    WrapNodeSets(Assemble(b), l);
    WholeOrInner(b, l);
    assert l in NodeSetsOfAll(Assemble(b)) <==> Plural(l) && IsInnerClass(b, l);
  }

  /** A class of the whole input is one of the bucket's, or one of the others'. */
  lemma ClassSplits(entries: seq<Entry>, outer: GroupId, l: set<nat>)
    requires Plural(l)
    ensures (exists s :: s != [] && l == Class(entries, s)) <==>
              || (exists s :: l == Class(Bucket(entries, outer), s))
              || (exists s :: s != [] && l == Class(Others(entries, outer), s))
  {
    if s :| l == Class(Bucket(entries, outer), s) {
      BucketClassIsClass(entries, outer, s);
    }
    if s :| s != [] && l == Class(Others(entries, outer), s) {
      OthersClassIsClass(entries, outer, s);
    }
    if s :| s != [] && l == Class(entries, s) {
      ClassIsInOnePart(entries, outer, s);
    }
  }

  lemma BucketClassIsClass(entries: seq<Entry>, outer: GroupId, s: seq<GroupId>)
    ensures exists s' :: s' != [] && Class(Bucket(entries, outer), s) == Class(entries, s')
  {
    ClassOfBucket(entries, outer, s);
    assert s + [outer] != [];
  }

  lemma OthersClassIsClass(entries: seq<Entry>, outer: GroupId, s: seq<GroupId>)
    requires s != [] && Plural(Class(Others(entries, outer), s))
    ensures Class(Others(entries, outer), s) == Class(entries, s)
  {
    ClassOfOthers(entries, outer, s);
  }

  lemma ClassIsInOnePart(entries: seq<Entry>, outer: GroupId, s: seq<GroupId>)
    requires s != []
    ensures Class(entries, s) == Class(Others(entries, outer), s)
            || Class(entries, s) == Class(Bucket(entries, outer), s[..|s| - 1])
  {
    var n := |s| - 1;
    ClassOfOthers(entries, outer, s);
    ClassOfBucket(entries, outer, s[..n]);
    assert s == s[..n] + [s[n]];
  }

  lemma MirrorStep(entries: seq<Entry>, outer: GroupId, l: set<nat>)
    requires Distinct(entries) && Bucket(entries, outer) != []
    requires MirrorsGroups(Bucket(entries, outer)) && MirrorsGroups(Others(entries, outer))
    ensures l in NodeSets(Wrap(Assemble(Bucket(entries, outer)))) + NodeSetsOfAll(Assemble(Others(entries, outer)))
            <==> Plural(l) && exists s :: s != [] && l == Class(entries, s)
  {
    DistinctParts(entries, outer);
    WrappedBucket(Bucket(entries, outer), l);
    if Plural(l) {
      ClassSplits(entries, outer, l);
    }
  }

  /**
   The whole hierarchy is rebuilt: at every depth, each group of the forest gathers exactly the
   inputs under some chain of group ids, and each such chain with two inputs or more has its group.
   */
  lemma {:induction false} HierarchyPreserved(entries: seq<Entry>)
    requires Distinct(entries)
    ensures MirrorsGroups(entries)
    decreases PathTotal(entries), |entries|
  {
    if entries == [] {
      forall s ensures Class(entries, s) == {} {
      }
    } else if entries[0].path == [] {
      UngroupedHead(entries);
      HierarchyPreserved(entries[1..]);
    } else {
      var outer := entries[0].path[|entries[0].path| - 1];
      Shrinks(entries, outer);
      DistinctParts(entries, outer);
      HierarchyPreserved(Bucket(entries, outer));
      HierarchyPreserved(Others(entries, outer));
      forall l
        ensures l in NodeSetsOfAll(Assemble(entries)) <==> Plural(l) && exists s :: s != [] && l == Class(entries, s)
      {
        MirrorStep(entries, outer, l);
      }
    }
  }

  lemma UngroupedHead(entries: seq<Entry>)
    requires entries != [] && entries[0].path == [] && Distinct(entries)
    ensures Distinct(entries[1..])
    ensures forall s :: s != [] ==> Class(entries, s) == Class(entries[1..], s)
  {
    forall x ensures Items(entries[1..])[x] <= 1 {
      assert Items(entries)[x] == multiset{entries[0].item}[x] + Items(entries[1..])[x];
    }
    forall s: seq<GroupId> | s != [] ensures Class(entries, s) == Class(entries[1..], s) {
      assert forall e :: e in entries && IsSuffix(s, e.path) ==> e != entries[0] && e in entries[1..];
    }
  }

  // ---------------------------------------------------------------- top-level trees

  ghost predicate Together(ts: seq<Tree>, x: nat, y: nat) {
    exists t :: t in ts && x in Leaves(t) && y in Leaves(t)
  }

  lemma NodeInTree(t: Tree, l: set<nat>)
    requires l in NodeSets(t)
    ensures l <= LeafSet(t)
    decreases t, 1
  {
    if t.Group? && l != LeafSet(t) {
      NodeInForest(t.children, l);
    }
  }

  lemma NodeInForest(ts: seq<Tree>, l: set<nat>)
    requires l in NodeSetsOfAll(ts)
    ensures exists t :: t in ts && l in NodeSets(t) && l <= LeafSet(t)
    ensures l <= set x | x in LeavesOfAll(ts)
    decreases ts, 0
  {
    if l in NodeSets(ts[0]) {
      NodeInTree(ts[0], l);
      assert ts[0] in ts;
    } else {
      NodeInForest(ts[1..], l);
      var t :| t in ts[1..] && l in NodeSets(t) && l <= LeafSet(t);
      assert t in ts;
    }
  }

  lemma TreeNodeInForest(ts: seq<Tree>, t: Tree)
    requires t in ts && t.Group?
    ensures LeafSet(t) in NodeSetsOfAll(ts)
  {
    if ts[0] != t {
      TreeNodeInForest(ts[1..], t);
    }
  }

  lemma OneEntryPerItem(entries: seq<Entry>, a: Entry, b: Entry)
    requires Distinct(entries) && a in entries && b in entries && a.item == b.item
    ensures a == b
  {
    var e := entries[0];
    assert forall x :: Items(entries)[x] == multiset{e.item}[x] + Items(entries[1..])[x];
    ItemsElems(entries[1..]);
    if a != e && b != e {
      OneEntryPerItem(entries[1..], a, b);
    }
  }

  lemma TogetherSharesOutermost(entries: seq<Entry>, a: Entry, b: Entry)
    requires Distinct(entries) && a in entries && b in entries && a.item != b.item
    requires Together(Assemble(entries), a.item, b.item)
    ensures a.path != [] && b.path != [] && a.path[|a.path| - 1] == b.path[|b.path| - 1]
  {
    HierarchyPreserved(entries);
    var t :| t in Assemble(entries) && a.item in Leaves(t) && b.item in Leaves(t);
    TreeNodeInForest(Assemble(entries), t);
    var s :| s != [] && LeafSet(t) == Class(entries, s);
    MemberEndsIn(entries, a, s);
    MemberEndsIn(entries, b, s);
  }

  lemma SharingOutermostIsTogether(entries: seq<Entry>, a: Entry, b: Entry)
    requires Distinct(entries) && a in entries && b in entries && a.item != b.item
    requires a.path != [] && b.path != [] && a.path[|a.path| - 1] == b.path[|b.path| - 1]
    ensures Together(Assemble(entries), a.item, b.item)
  {
    var s := [a.path[|a.path| - 1]];
    assert IsSuffix(s, a.path) && IsSuffix(s, b.path);
    var l := Class(entries, s);
    assert a.item in l && b.item in l;
    HierarchyPreserved(entries);
    NodeInForest(Assemble(entries), l);
  }

  /** Two inputs land in the same top-level tree iff they share their outermost group. */
  lemma SameTreeIffSameOutermost(entries: seq<Entry>, a: Entry, b: Entry)
    requires Distinct(entries) && a in entries && b in entries && a != b
    ensures Together(Assemble(entries), a.item, b.item) <==>
              a.path != [] && b.path != [] && a.path[|a.path| - 1] == b.path[|b.path| - 1]
  {
    if a.item == b.item { OneEntryPerItem(entries, a, b); }
    if Together(Assemble(entries), a.item, b.item) {
      TogetherSharesOutermost(entries, a, b);
    }
    if a.path != [] && b.path != [] && a.path[|a.path| - 1] == b.path[|b.path| - 1] {
      SharingOutermostIsTogether(entries, a, b);
    }
  }

  lemma MemberEndsIn(entries: seq<Entry>, a: Entry, s: seq<GroupId>)
    requires Distinct(entries) && a in entries && s != [] && a.item in Class(entries, s)
    ensures a.path != [] && a.path[|a.path| - 1] == s[|s| - 1]
  {
    var e :| e in entries && IsSuffix(s, e.path) && e.item == a.item;
    OneEntryPerItem(entries, a, e);
    SuffixEnds(s, a.path);
  }

  // ---------------------------------------------------------------- the imperative code

  /** The entries not yet handled. */
  ghost function Pending(entries: seq<Entry>, handled: seq<bool>): seq<Entry>
    requires |entries| == |handled|
  {
    if entries == [] then []
    else if handled[0] then Pending(entries[1..], handled[1..])
    else [entries[0]] + Pending(entries[1..], handled[1..])
  }

  lemma PendingAfterGather(entries: seq<Entry>, before: seq<bool>, after: seq<bool>, outer: GroupId)
    requires |entries| == |before| == |after|
    requires forall k :: 0 <= k < |entries| ==> after[k] == (before[k] || InGroup(entries[k], outer))
    ensures Pending(entries, after) == Others(Pending(entries, before), outer)
  {
    if entries != [] {
      PendingAfterGather(entries[1..], before[1..], after[1..], outer);
      assert ([entries[0]] + Pending(entries[1..], before[1..]))[1..] == Pending(entries[1..], before[1..]);
    }
  }

  /** Collect the unhandled entries of one outermost group, from position `i` on, and mark them. */
  method Gather(entries: seq<Entry>, handled: seq<bool>, i: nat, outer: GroupId)
    returns (bucket: seq<Entry>, marked: seq<bool>)
    requires i < |entries| == |handled|
    ensures |marked| == |handled|
    ensures bucket == Bucket(Pending(entries[i..], handled[i..]), outer)
    ensures forall k :: i <= k < |entries| ==> marked[k] == (handled[k] || InGroup(entries[k], outer))
  {
    bucket, marked := [], handled;
    for j := i to |entries|
      invariant |marked| == |handled|
      invariant forall k :: i <= k < j ==> marked[k] == (handled[k] || InGroup(entries[k], outer))
      invariant forall k :: j <= k < |handled| ==> marked[k] == handled[k]
      invariant bucket + Bucket(Pending(entries[j..], handled[j..]), outer)
                == Bucket(Pending(entries[i..], handled[i..]), outer)
    {
      assert entries[j..][1..] == entries[j + 1..] && handled[j..][1..] == handled[j + 1..];
      var e := entries[j];
      ghost var rest := Pending(entries[j + 1..], handled[j + 1..]);
      assert ([e] + rest)[1..] == rest;
      if !marked[j] && e.path != [] && e.path[|e.path| - 1] == outer {
        marked := marked[j := true];
        bucket := bucket + [e.(path := e.path[..|e.path| - 1])];
      }
    }
  }

  lemma PendingHead(entries: seq<Entry>, handled: seq<bool>, i: nat)
    requires i < |entries| == |handled|
    ensures Pending(entries[i..], handled[i..]) ==
              (if handled[i] then [] else [entries[i]]) + Pending(entries[i + 1..], handled[i + 1..])
  {
    assert entries[i..][1..] == entries[i + 1..] && handled[i..][1..] == handled[i + 1..];
  }

  lemma ItemStep(entries: seq<Entry>, handled: seq<bool>, i: nat)
    requires i < |entries| == |handled| && !handled[i] && entries[i].path == []
    ensures Assemble(Pending(entries[i..], handled[i..]))
            == [Item(entries[i].item)] + Assemble(Pending(entries[i + 1..], handled[i := true][i + 1..]))
  {
    PendingHead(entries, handled, i);
    var rest := Pending(entries[i + 1..], handled[i + 1..]);
    assert handled[i := true][i + 1..] == handled[i + 1..];
    assert ([entries[i]] + rest)[1..] == rest;
  }

  lemma AfterGather(entries: seq<Entry>, handled: seq<bool>, marked: seq<bool>, i: nat, outer: GroupId)
    requires i < |entries| == |handled| == |marked| && !handled[i] && InGroup(entries[i], outer)
    requires forall k :: i <= k < |entries| ==> marked[k] == (handled[k] || InGroup(entries[k], outer))
    ensures Assemble(Pending(entries[i..], handled[i..])) ==
              [Wrap(Assemble(Bucket(Pending(entries[i..], handled[i..]), outer)))]
                  + Assemble(Pending(entries[i + 1..], marked[i + 1..]))
  {
    PendingHead(entries, handled, i);
    PendingHead(entries, marked, i);
    PendingAfterGather(entries[i..], handled[i..], marked[i..], outer);
  }

  lemma AssembledFacts(entries: seq<Entry>)
    ensures var ts := Assemble(entries);
            AllInOrder(entries, ts) && LeavesOfAll(ts) == Items(entries) && AllBranching(ts)
  {
    OrderPreserved(entries);
    LeavesConserved(entries);
    GroupsBranch(entries);
  }

  /** The recursion terminates because the longest path shrinks at every level. */
  method AssembleGroups(entries: seq<Entry>) returns (out: seq<Tree>)
    ensures out == Assemble(entries)
    ensures AllInOrder(entries, out) && LeavesOfAll(out) == Items(entries) && AllBranching(out)
    decreases MaxPath(entries), 1
  {
    var handled := seq(|entries|, _ => false);
    out := [];
    AllPending(entries, handled);
    for i := 0 to |entries|
      invariant |handled| == |entries|
      invariant out + Assemble(Pending(entries[i..], handled[i..])) == Assemble(entries)
    {
      ghost var before, seen := out, handled;
      if handled[i] {
        PendingHead(entries, handled, i);
      } else {
        var e := entries[i];
        var tree;
        if e.path == [] {
          tree, handled := Item(e.item), handled[i := true];
          ItemStep(entries, seen, i);
        } else {
          tree, handled := AssembleGroupOf(entries, handled, i);
        }
        out := out + [tree];
        Associate(before, [tree], Assemble(Pending(entries[i + 1..], handled[i + 1..])));
      }
    }
    assert out + [] == out;
    AssembledFacts(entries);
  }

  /** One turn of the loop for a grouped element: gather its group, assemble it, collapse a single child. */
  method AssembleGroupOf(entries: seq<Entry>, handled: seq<bool>, i: nat) returns (tree: Tree, marked: seq<bool>)
    requires i < |entries| == |handled| && !handled[i] && entries[i].path != []
    ensures |marked| == |handled|
    ensures Assemble(Pending(entries[i..], handled[i..]))
            == [tree] + Assemble(Pending(entries[i + 1..], marked[i + 1..]))
    decreases MaxPath(entries), 0
  {
    var outer := entries[i].path[|entries[i].path| - 1];
    var bucket;
    bucket, marked := Gather(entries, handled, i, outer);
    AfterGather(entries, handled, marked, i, outer);
    GatheredIsShorter(entries, i, handled, outer);
    var children := AssembleGroups(bucket);
    if |children| == 1 {
      tree := children[0];
    } else {
      tree := Group(children);
    }
  }

  lemma AllPending(entries: seq<Entry>, handled: seq<bool>)
    requires |entries| == |handled| && forall k :: 0 <= k < |handled| ==> !handled[k]
    ensures Pending(entries, handled) == entries && entries[0..] == entries && handled[0..] == handled
  {
  }

  lemma PendingElems(entries: seq<Entry>, handled: seq<bool>)
    requires |entries| == |handled|
    ensures forall e :: e in Pending(entries, handled) ==> e in entries
  {
  }

  lemma GatheredIsShorter(entries: seq<Entry>, i: nat, handled: seq<bool>, outer: GroupId)
    requires i < |entries| == |handled| && !handled[i] && InGroup(entries[i], outer)
    ensures var bucket := Bucket(Pending(entries[i..], handled[i..]), outer);
            bucket != [] && MaxPath(bucket) < MaxPath(entries)
  {
    var pending := Pending(entries[i..], handled[i..]);
    PendingElems(entries[i..], handled[i..]);
    BucketMaxPath(pending, outer);
    if MaxPath(pending) > 0 {
      var e :| e in pending && |e.path| == MaxPath(pending);
      assert e in entries;
    }
  }

  /**
   A library item: the convertible elements as one group. There is none exactly when nothing is
   convertible; otherwise the result is a group whose leaves are exactly the converted elements.
   */
  method ItemShapeFromElements(elements: seq<Option<Entry>>) returns (item: Option<Tree>)
    ensures item.None? <==> forall i :: 0 <= i < |elements| ==> elements[i].None?
    ensures item.Some? ==> item.value.Group? && Leaves(item.value) == Items(Converted(elements))
    ensures item.Some? ==> AllBranching(item.value.children) && AllInOrder(Converted(elements), item.value.children)
    ensures item.Some? ==> [item.value] == Assemble(Converted(elements))
                           || item.value.children == Assemble(Converted(elements))
    ensures item.Some? ==> (|item.value.children| >= 2 <==> |Converted(elements)| >= 2)
  {
    var entries := [];
    for i := 0 to |elements|
      invariant entries == Converted(elements[..i])
      invariant entries == [] <==> forall k :: 0 <= k < i ==> elements[k].None?
    {
      assert elements[..i + 1][..i] == elements[..i];
      if elements[i].Some? {
        entries := entries + [elements[i].value];
      }
    }
    assert elements[..|elements|] == elements;
    if entries == [] {
      return None;
    }
    var children := AssembleGroups(entries);
    ForestSizes(entries);
    if |children| == 1 {
      WrapLeaves(children);
      var only := children[0];
      if only.Group? {
        return Some(only);
      }
      assert [only] == children;
      return Some(Group([only]));
    }
    return Some(Group(children));
  }

  function Converted(elements: seq<Option<Entry>>): seq<Entry> {
    if elements == [] then []
    else
      var n := |elements| - 1;
      Converted(elements[..n]) + if elements[n].Some? then [elements[n].value] else []
  }

  /** What converts is kept in order, and nothing else. */
  lemma ConvertedInOrder(a: seq<Option<Entry>>, b: seq<Option<Entry>>)
    ensures Converted(a + b) == Converted(a) + Converted(b)
  {
    if b == [] {
      assert a + b == a;
    } else {
      var n := |b| - 1;
      ConvertedInOrder(a, b[..n]);
      ConvertedPush(a + b[..n], b[n]);
      ConvertedPush(b[..n], b[n]);
      Associate(a, b[..n], [b[n]]);
      Associate(Converted(a), Converted(b[..n]), if b[n].Some? then [b[n].value] else []);
      assert b == b[..n] + [b[n]];
    }
  }

  lemma ConvertedPush(a: seq<Option<Entry>>, e: Option<Entry>)
    ensures Converted(a + [e]) == Converted(a) + if e.Some? then [e.value] else []
  {
    assert (a + [e])[..|a|] == a;
  }

  /** With several inputs there are several trees or one branching group; with one there is one item. */
  lemma ForestSizes(entries: seq<Entry>)
    requires entries != []
    ensures var ts := Assemble(entries);
            if |entries| == 1 then |ts| == 1 && ts[0].Item? else |ts| >= 2 || ts[0].Group?
  {
    var ts := Assemble(entries);
    LeavesConserved(entries);
    GroupsBranch(entries);
    LeavesCount(ts);
    if |ts| == 1 {
      assert ts == [ts[0]] && LeavesOfAll(ts) == Leaves(ts[0]) + LeavesOfAll(ts[1..]);
      if ts[0].Group? {
        LeavesCount(ts[0].children);
      }
    }
  }

  lemma LeavesCount(ts: seq<Tree>)
    requires AllBranching(ts)
    ensures |LeavesOfAll(ts)| >= |ts|
  {
    if ts != [] {
      var x := SomeLeaf(ts[0]);
      LeavesCount(ts[1..]);
      assert |Leaves(ts[0])| >= 1;
    }
  }
}
