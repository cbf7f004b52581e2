/** The tariff menu: the tree built from the root down, against the check made from a node up. */
module Menu {
  import opened Wrappers
  import Sorting

  datatype Kind = Buttons | Invoice | OtherAction

  /** A menu row. `target` is what validating its invoice columns yields. */
  datatype Node = Node(id: int, parent: Option<int>, action: Kind, order: int, active: bool, target: Option<string>)

  datatype Tree = Tree(node: Node, children: seq<Tree>)

  // ---- the rows ----

  /** The rows of the table, listed once each. */
  ghost predicate Keyed(rows: seq<Node>) {
    forall i, j :: 0 <= i < j < |rows| ==> rows[i].id != rows[j].id
  }

  predicate Row(rows: seq<Node>, n: Node) {
    Sorting.Member(rows, n)
  }

  function Ids(rows: seq<Node>): set<int> {
    set i | 0 <= i < |rows| :: rows[i].id
  }

  lemma RowsById(rows: seq<Node>, a: Node, b: Node)
    requires Keyed(rows) && Row(rows, a) && Row(rows, b) && a.id == b.id
    ensures a == b
  {
  }

  // ---- siblings in display order ----

  predicate Before(a: Node, b: Node) {
    a.order < b.order || (a.order == b.order && a.id <= b.id)
  }

  predicate Sorted(s: seq<Node>) {
    forall i, j :: 0 <= i < j < |s| ==> Before(s[i], s[j])
  }

  function ChildrenOf(rows: seq<Node>, parent: Option<int>): seq<Node> {
    if rows == [] then []
    else if rows[0].parent == parent then [rows[0]] + ChildrenOf(rows[1..], parent)
    else ChildrenOf(rows[1..], parent)
  }

  function Siblings(rows: seq<Node>, parent: Option<int>): seq<Node> {
    Sorting.Sort(ChildrenOf(rows, parent), Before)
  }

  lemma {:induction false} ChildrenOfIs(rows: seq<Node>, parent: Option<int>)
    ensures forall n :: Row(ChildrenOf(rows, parent), n) <==> Row(rows, n) && n.parent == parent
    ensures Keyed(rows) ==> Keyed(ChildrenOf(rows, parent))
  {
    if rows != [] {
      ChildrenOfIs(rows[1..], parent);
      var c, rest := ChildrenOf(rows, parent), ChildrenOf(rows[1..], parent);
      Sorting.MemberCons(rows);
      if rows[0].parent == parent {
        assert c[0] == rows[0] && c[1..] == rest;
        Sorting.MemberCons(c);
        forall n ensures Row(c, n) <==> Row(rows, n) && n.parent == parent {
          assert Row(rows, n) <==> n == rows[0] || Row(rows[1..], n);
          assert Row(c, n) <==> n == c[0] || Row(rest, n);
        }
        if Keyed(rows) {
          forall j | 0 <= j < |rest| ensures rest[j].id != rows[0].id {
            assert Row(rest, rest[j]) && Row(rows[1..], rest[j]);
          }
        }
      }
    }
  }

  predicate DifferentIds(a: Node, b: Node) { a.id != b.id }

  /** The children of a node: all of them, once each, in display order. */
  lemma SiblingsAre(rows: seq<Node>, parent: Option<int>)
    ensures Sorted(Siblings(rows, parent))
    ensures forall n :: Row(Siblings(rows, parent), n) <==> Row(rows, n) && n.parent == parent
    ensures Keyed(rows) ==> Keyed(Siblings(rows, parent))
  {
    ChildrenOfIs(rows, parent);
    Sorting.SortIs(ChildrenOf(rows, parent), Before, DifferentIds);
  }

  // ---- the walk from the root ----

  ghost predicate AllRows(rows: seq<Node>, kids: seq<Node>) {
    forall i :: 0 <= i < |kids| ==> Row(rows, kids[i])
  }

  lemma SiblingsAreRows(rows: seq<Node>, parent: Option<int>)
    ensures AllRows(rows, Siblings(rows, parent))
  {
    SiblingsAre(rows, parent);
    forall i | 0 <= i < |Siblings(rows, parent)| ensures Row(rows, Siblings(rows, parent)[i]) {
      assert Row(Siblings(rows, parent), Siblings(rows, parent)[i]);
    }
  }

  lemma FewerLeft(rows: seq<Node>, ancestors: set<int>, n: Node)
    requires Row(rows, n) && n.id !in ancestors
    ensures |Ids(rows) - (ancestors + {n.id})| < |Ids(rows) - ancestors|
  {
    var a, b := Ids(rows) - (ancestors + {n.id}), Ids(rows) - ancestors;
    assert n.id in b;
    assert b - {n.id} == a;
    assert |b - {n.id}| == |b| - 1;
  }

  /** `walk` of `build_tree`. */
  ghost function Walk(rows: seq<Node>, activeOnly: bool, parent: Option<int>, ancestors: set<int>): seq<Tree>
    decreases |Ids(rows) - ancestors|, 1, 0
  {
    SiblingsAreRows(rows, parent);
    WalkKids(rows, activeOnly, Siblings(rows, parent), ancestors)
  }

  /** The loop over the children. */
  ghost function WalkKids(rows: seq<Node>, activeOnly: bool, kids: seq<Node>, ancestors: set<int>): seq<Tree>
    requires AllRows(rows, kids)
    decreases |Ids(rows) - ancestors|, 0, |kids|
  {
    if kids == [] then []
    else
      var n := kids[0];
      assert Row(rows, n);
      assert AllRows(rows, kids[1..]);
      if n.id in ancestors || (activeOnly && !n.active) then WalkKids(rows, activeOnly, kids[1..], ancestors)
      else
        FewerLeft(rows, ancestors, n);
        var children := Walk(rows, activeOnly, Some(n.id), ancestors + {n.id});
        (if Kept(n, children) then [Tree(n, children)] else []) + WalkKids(rows, activeOnly, kids[1..], ancestors)
  }

  /** An invoice needs a valid target, a group needs something to show. */
  predicate Kept(n: Node, children: seq<Tree>) {
    (n.action == Invoice ==> n.target.Some?) && (n.action == Buttons ==> children != [])
  }

  ghost function BuildTree(rows: seq<Node>, activeOnly: bool): seq<Tree> {
    Walk(rows, activeOnly, None, {})
  }

  // ---- chains of parents ----

  /** A path of rows from a root down, each the parent of the next. */
  ghost predicate Chain(rows: seq<Node>, path: seq<Node>) {
    && |path| > 0 && AllRows(rows, path) && path[0].parent == None
    && forall i :: 0 <= i < |path| - 1 ==> path[i + 1].parent == Some(path[i].id)
  }

  /** The same node never occurs twice on a path from the root, however cyclic the table is. */
  lemma {:induction false} ChainDistinct(rows: seq<Node>, path: seq<Node>, i: nat, j: nat)
    requires Keyed(rows) && Chain(rows, path) && i < j < |path|
    ensures path[i].id != path[j].id
    decreases i
  {
    if path[i].id == path[j].id {
      RowsById(rows, path[i], path[j]);
      assert path[(j - 1) + 1].parent == Some(path[j - 1].id);
      if i > 0 {
        assert path[(i - 1) + 1].parent == Some(path[i - 1].id);
        ChainDistinct(rows, path, i - 1, j - 1);
      }
    }
  }

  /** A node has at most one path from the root. */
  lemma {:induction false} ChainUnique(rows: seq<Node>, a: seq<Node>, b: seq<Node>)
    requires Keyed(rows) && Chain(rows, a) && Chain(rows, b) && a[|a| - 1].id == b[|b| - 1].id
    ensures a == b
    decreases |a|
  {
    var x, y := a[|a| - 1], b[|b| - 1];
    assert Row(rows, x) && Row(rows, y);
    RowsById(rows, x, y);
    assert |a| > 1 ==> a[(|a| - 2) + 1].parent == Some(a[|a| - 2].id);
    assert |b| > 1 ==> b[(|b| - 2) + 1].parent == Some(b[|b| - 2].id);
    if |a| > 1 && |b| > 1 {
      ChainUnique(rows, a[..|a| - 1], b[..|b| - 1]);
      assert a == a[..|a| - 1] + [x] && b == b[..|b| - 1] + [y];
    } else {
      assert a == [x] && b == [y];
    }
  }

  function IdsOf(path: seq<Node>): set<int> {
    set i | 0 <= i < |path| :: path[i].id
  }

  function ParentOf(prefix: seq<Node>): Option<int> {
    if prefix == [] then None else Some(prefix[|prefix| - 1].id)
  }

  /** A walk only ever follows chains. */
  ghost predicate OnWalk(rows: seq<Node>, prefix: seq<Node>) {
    prefix == [] || Chain(rows, prefix)
  }

  lemma ExtendChain(rows: seq<Node>, prefix: seq<Node>, n: Node)
    requires OnWalk(rows, prefix) && Row(rows, n) && n.parent == ParentOf(prefix)
    ensures Chain(rows, prefix + [n]) && ParentOf(prefix + [n]) == Some(n.id)
    ensures IdsOf(prefix + [n]) == IdsOf(prefix) + {n.id}
  {
    var path := prefix + [n];
    forall id ensures id in IdsOf(path) <==> id in IdsOf(prefix) + {n.id} {
      if id in IdsOf(prefix) {
        var i :| 0 <= i < |prefix| && prefix[i].id == id;
        assert path[i].id == id;
      }
      assert path[|prefix|].id == n.id;
    }
  }

  /** The test for a cycle never fires: a child of the node that the walk has reached is never
      one of the nodes above it. */
  lemma CycleTestNeverFires(rows: seq<Node>, prefix: seq<Node>, n: Node)
    requires Keyed(rows) && OnWalk(rows, prefix) && Row(rows, n) && n.parent == ParentOf(prefix)
    ensures n.id !in IdsOf(prefix)
  {
    ExtendChain(rows, prefix, n);
    var path := prefix + [n];
    forall i | 0 <= i < |prefix| ensures prefix[i].id != n.id {
      ChainDistinct(rows, path, i, |prefix|);
    }
  }

  // ---- where a node is in the tree ----

  ghost predicate Occurs(ts: seq<Tree>, path: seq<Node>)
    decreases |path|
  {
    |path| > 0 && exists i :: 0 <= i < |ts| && OccursIn(ts[i], path)
  }

  ghost predicate OccursIn(t: Tree, path: seq<Node>)
    requires |path| > 0
    decreases |path|, 0
  {
    t.node == path[0] && (|path| == 1 || Occurs(t.children, path[1..]))
  }

  /** What the loop over the children emits. */
  lemma {:induction false} KidsEmit(rows: seq<Node>, activeOnly: bool, kids: seq<Node>, ancestors: set<int>,
                                    path: seq<Node>)
    requires AllRows(rows, kids) && |path| > 0
    ensures var n := path[0];
            var children := Walk(rows, activeOnly, Some(n.id), ancestors + {n.id});
            Occurs(WalkKids(rows, activeOnly, kids, ancestors), path)
            <==> && Row(kids, n) && n.id !in ancestors && (activeOnly ==> n.active) && Kept(n, children)
                 && (|path| == 1 || Occurs(children, path[1..]))
  {
    var ts := WalkKids(rows, activeOnly, kids, ancestors);
    if kids == [] {
      assert ts == [];
    } else {
      KidsEmit(rows, activeOnly, kids[1..], ancestors, path);
      Sorting.MemberCons(kids);
      var k := kids[0];
      var rest := WalkKids(rows, activeOnly, kids[1..], ancestors);
      if !(k.id in ancestors || (activeOnly && !k.active))
          && Kept(k, Walk(rows, activeOnly, Some(k.id), ancestors + {k.id})) {
        assert ts == [Tree(k, Walk(rows, activeOnly, Some(k.id), ancestors + {k.id}))] + rest;
        OccursCons(ts, path);
        assert ts[1..] == rest;
      } else {
        assert ts == rest;
      }
    }
  }

  lemma {:induction false} OccursCons(ts: seq<Tree>, path: seq<Node>)
    requires |ts| > 0 && |path| > 0
    ensures Occurs(ts, path) <==> OccursIn(ts[0], path) || Occurs(ts[1..], path)
  {
    if Occurs(ts[1..], path) {
      var i :| 0 <= i < |ts[1..]| && OccursIn(ts[1..][i], path);
      assert OccursIn(ts[i + 1], path);
    }
    if Occurs(ts, path) && !OccursIn(ts[0], path) {
      var i :| 0 <= i < |ts| && OccursIn(ts[i], path);
      assert OccursIn(ts[1..][i - 1], path);
    }
  }

  /** The same for the walk below a node that the walk has reached. */
  lemma {:induction false} WalkEmits(rows: seq<Node>, activeOnly: bool, prefix: seq<Node>, path: seq<Node>)
    requires Keyed(rows) && OnWalk(rows, prefix) && |path| > 0
    ensures var n := path[0];
            var children := Walk(rows, activeOnly, ParentOf(prefix + [n]), IdsOf(prefix + [n]));
            Occurs(Walk(rows, activeOnly, ParentOf(prefix), IdsOf(prefix)), path)
            <==> && Row(rows, n) && n.parent == ParentOf(prefix) && (activeOnly ==> n.active) && Kept(n, children)
                 && (|path| == 1 || Occurs(children, path[1..]))
  {
    var n := path[0];
    SiblingsAre(rows, ParentOf(prefix));
    SiblingsAreRows(rows, ParentOf(prefix));
    KidsEmit(rows, activeOnly, Siblings(rows, ParentOf(prefix)), IdsOf(prefix), path);
    if Row(rows, n) && n.parent == ParentOf(prefix) {
      CycleTestNeverFires(rows, prefix, n);
      ExtendChain(rows, prefix, n);
    }
  }
}
