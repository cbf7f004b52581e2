/** The two readings of the menu agree; and the code that computes them. */
module MenuAgreement {
  import opened Wrappers
  import opened Menu
  import Sorting

  // ---- top down ----

  /** Everything above the last node is a group. */
  predicate GroupsAbove(path: seq<Node>) {
    forall i :: 0 <= i < |path| - 1 ==> path[i].action == Buttons
  }

  predicate AllActive(path: seq<Node>) {
    forall i :: 0 <= i < |path| ==> path[i].active
  }

  predicate InvoicesValid(path: seq<Node>) {
    forall i :: 0 <= i < |path| ==> path[i].action == Invoice ==> path[i].target.Some?
  }

  /** Whatever the tree shows hangs at its own chain of parents, all active, all invoices valid. */
  lemma {:induction false} EmittedIsChain(rows: seq<Node>, prefix: seq<Node>, path: seq<Node>)
    requires Keyed(rows) && OnWalk(rows, prefix)
    requires Occurs(Walk(rows, true, ParentOf(prefix), IdsOf(prefix)), path)
    ensures Chain(rows, prefix + path) && AllActive(path) && InvoicesValid(path)
    decreases |path|
  {
    WalkEmits(rows, true, prefix, path);
    ExtendChain(rows, prefix, path[0]);
    if |path| > 1 {
      EmittedIsChain(rows, prefix + [path[0]], path[1..]);
      assert (prefix + [path[0]]) + path[1..] == prefix + path;
      assert path == [path[0]] + path[1..];
    } else {
      assert path == [path[0]];
    }
  }

  /** A chain of active groups that ends in a valid invoice is shown. */
  lemma {:induction false} ChainIsEmitted(rows: seq<Node>, prefix: seq<Node>, path: seq<Node>)
    requires Keyed(rows) && OnWalk(rows, prefix) && |path| > 0 && Chain(rows, prefix + path)
    requires AllActive(path) && GroupsAbove(path)
    requires path[|path| - 1].action == Invoice && path[|path| - 1].target.Some?
    ensures Occurs(Walk(rows, true, ParentOf(prefix), IdsOf(prefix)), path)
    decreases |path|
  {
    var n, whole := path[0], prefix + path;
    assert whole[|prefix|] == n && Row(rows, whole[|prefix|]);
    assert n.parent == ParentOf(prefix) by {
      if prefix != [] { assert whole[(|prefix| - 1) + 1].parent == Some(whole[|prefix| - 1].id); }
    }
    ExtendChain(rows, prefix, n);
    if |path| > 1 {
      assert (prefix + [n]) + path[1..] == whole;
      ChainIsEmitted(rows, prefix + [n], path[1..]);
    }
    WalkEmits(rows, true, prefix, path);
  }

  /** Another node, of no smaller order; of the same order only with a greater id. */
  predicate Follows(b: Node, a: Node) {
    a.id != b.id && a.order <= b.order && (a.order == b.order ==> a.id < b.id)
  }

  /** Siblings of the tree are different nodes in display order, at every level. */
  ghost predicate DistinctSiblings(ts: seq<Tree>) {
    && (forall i, j :: 0 <= i < j < |ts| ==> Follows(ts[j].node, ts[i].node))
    && forall i :: 0 <= i < |ts| ==> DistinctSiblings(ts[i].children)
  }

  lemma {:induction false} WalkIsDistinct(rows: seq<Node>, activeOnly: bool, parent: Option<int>, ancestors: set<int>)
    requires Keyed(rows)
    ensures DistinctSiblings(Walk(rows, activeOnly, parent, ancestors))
    decreases |Ids(rows) - ancestors|, 1, 0
  {
    SiblingsAre(rows, parent);
    SiblingsAreRows(rows, parent);
    KidsAreDistinct(rows, activeOnly, Siblings(rows, parent), ancestors);
  }

  /** Every tree is rooted at one of these nodes. */
  ghost predicate RootedAt(ts: seq<Tree>, kids: seq<Node>) {
    forall i :: 0 <= i < |ts| ==> Sorting.Member(kids, ts[i].node)
  }

  lemma OneMoreKid(kids: seq<Node>, rest: seq<Tree>)
    requires kids != [] && Keyed(kids) && Sorted(kids) && RootedAt(rest, kids[1..])
    ensures RootedAt(rest, kids) && forall i :: 0 <= i < |rest| ==> Follows(rest[i].node, kids[0])
  {
    Sorting.MemberCons(kids);
    forall i | 0 <= i < |rest|
      ensures Sorting.Member(kids, rest[i].node) && Follows(rest[i].node, kids[0])
    {
      assert Sorting.Member(kids[1..], rest[i].node);
      var k :| 0 <= k < |kids[1..]| && kids[1..][k] == rest[i].node;
      assert kids[k + 1] == rest[i].node && Before(kids[0], kids[k + 1]);
    }
  }

  lemma {:induction false} FirstKidIsDistinct(t: Tree, rest: seq<Tree>, kids: seq<Node>)
    requires kids != [] && t.node == kids[0] && DistinctSiblings(t.children)
    requires DistinctSiblings(rest) && RootedAt(rest, kids)
    requires forall i :: 0 <= i < |rest| ==> Follows(rest[i].node, t.node)
    ensures DistinctSiblings([t] + rest) && RootedAt([t] + rest, kids)
  {
    var ts := [t] + rest;
    forall i | 0 <= i < |ts|
      ensures DistinctSiblings(ts[i].children) && Sorting.Member(kids, ts[i].node)
    {
      assert i > 0 ==> ts[i] == rest[i - 1];
    }
    forall i, j | 0 <= i < j < |ts|
      ensures Follows(ts[j].node, ts[i].node)
    {
      assert ts[j] == rest[j - 1];
      assert i > 0 ==> ts[i] == rest[i - 1];
    }
  }

  lemma {:induction false} KidsAreDistinct(rows: seq<Node>, activeOnly: bool, kids: seq<Node>, ancestors: set<int>)
    requires Keyed(rows) && AllRows(rows, kids) && Keyed(kids) && Sorted(kids)
    ensures var ts := WalkKids(rows, activeOnly, kids, ancestors);
            DistinctSiblings(ts) && RootedAt(ts, kids)
    decreases |Ids(rows) - ancestors|, 0, |kids|
  {
    if kids != [] {
      var n := kids[0];
      KidsAreDistinct(rows, activeOnly, kids[1..], ancestors);
      var rest := WalkKids(rows, activeOnly, kids[1..], ancestors);
      var ts := WalkKids(rows, activeOnly, kids, ancestors);
      OneMoreKid(kids, rest);
      if !(n.id in ancestors || (activeOnly && !n.active)) {
        assert Row(rows, n);
        FewerLeft(rows, ancestors, n);
        WalkIsDistinct(rows, activeOnly, Some(n.id), ancestors + {n.id});
        var children := Walk(rows, activeOnly, Some(n.id), ancestors + {n.id});
        assert ts == (if Kept(n, children) then [Tree(n, children)] else []) + rest;
        FirstKidIsDistinct(Tree(n, children), rest, kids);
      }
    }
  }

  /** Every leaf of the output is a valid invoice when the table has groups and invoices only. */
  ghost predicate LeavesAreInvoices(ts: seq<Tree>) {
    forall i :: 0 <= i < |ts| ==>
      (ts[i].children == [] ==> ts[i].node.action == Invoice && ts[i].node.target.Some?)
          && LeavesAreInvoices(ts[i].children)
  }

  lemma {:induction false} LeavesOfWalk(rows: seq<Node>, activeOnly: bool, parent: Option<int>, ancestors: set<int>)
    requires forall i :: 0 <= i < |rows| ==> rows[i].action != OtherAction
    ensures LeavesAreInvoices(Walk(rows, activeOnly, parent, ancestors))
    decreases |Ids(rows) - ancestors|, 1, 0
  {
    SiblingsAreRows(rows, parent);
    LeavesOfKids(rows, activeOnly, Siblings(rows, parent), ancestors);
  }

  lemma {:induction false} LeavesOfKids(rows: seq<Node>, activeOnly: bool, kids: seq<Node>, ancestors: set<int>)
    requires AllRows(rows, kids) && forall i :: 0 <= i < |rows| ==> rows[i].action != OtherAction
    ensures LeavesAreInvoices(WalkKids(rows, activeOnly, kids, ancestors))
    decreases |Ids(rows) - ancestors|, 0, |kids|
  {
    if kids != [] {
      var n := kids[0];
      assert Row(rows, n);
      LeavesOfKids(rows, activeOnly, kids[1..], ancestors);
      if !(n.id in ancestors || (activeOnly && !n.active)) {
        FewerLeft(rows, ancestors, n);
        LeavesOfWalk(rows, activeOnly, Some(n.id), ancestors + {n.id});
      }
    }
  }

  // ---- bottom up ----

  /** What `get_active_node` looks for: an active chain of groups from the root to the node. */
  ghost predicate ActiveChain(rows: seq<Node>, path: seq<Node>) {
    Chain(rows, path) && AllActive(path) && GroupsAbove(path)
  }

  ghost predicate Accepted(rows: seq<Node>, id: int) {
    exists path: seq<Node> :: ActiveChain(rows, path) && path[|path| - 1].id == id
  }

  /** An accepted invoice with a valid target is shown, at its own chain of parents and nowhere
      else; a node shown below groups only is accepted; so for valid invoices both agree. */
  lemma TopDownAgreesWithBottomUp(rows: seq<Node>, n: Node)
    requires Keyed(rows) && Row(rows, n) && n.action == Invoice && n.target.Some?
    ensures Accepted(rows, n.id)
            <==> exists path: seq<Node> ::
                   Occurs(BuildTree(rows, true), path) && GroupsAbove(path) && path[|path| - 1] == n
  {
    assert IdsOf([]) == {};
    if Accepted(rows, n.id) {
      var path: seq<Node> :| ActiveChain(rows, path) && path[|path| - 1].id == n.id;
      assert Row(rows, path[|path| - 1]);
      RowsById(rows, n, path[|path| - 1]);
      assert [] + path == path;
      ChainIsEmitted(rows, [], path);
    }
    if path: seq<Node> :| Occurs(BuildTree(rows, true), path) && GroupsAbove(path) && path[|path| - 1] == n {
      EmittedBelowGroupsIsAccepted(rows, path);
    }
  }

  lemma {:induction false} EmittedBelowGroupsIsAccepted(rows: seq<Node>, path: seq<Node>)
    requires Keyed(rows) && Occurs(BuildTree(rows, true), path) && GroupsAbove(path)
    ensures Accepted(rows, path[|path| - 1].id)
  {
    assert IdsOf([]) == {};
    EmittedIsChain(rows, [], path);
    assert [] + path == path;
    assert ActiveChain(rows, path);
  }

  /** Nothing is shown twice: siblings differ and are in order, and two places with the same node are one place. */
  lemma {:induction false} ShownOnce(rows: seq<Node>, a: seq<Node>, b: seq<Node>)
    requires Keyed(rows) && Occurs(BuildTree(rows, true), a) && Occurs(BuildTree(rows, true), b)
    requires a[|a| - 1].id == b[|b| - 1].id
    ensures a == b && DistinctSiblings(BuildTree(rows, true))
  {
    assert IdsOf([]) == {};
    EmittedIsChain(rows, [], a);
    EmittedIsChain(rows, [], b);
    assert [] + a == a && [] + b == b;
    ChainUnique(rows, a, b);
    WalkIsDistinct(rows, true, None, {});
  }

  // ---- the code ----

  /** A stretch of parents that has been climbed: `up[0]` is the highest node reached. */
  ghost predicate Climbed(rows: seq<Node>, up: seq<Node>) {
    && |up| > 0 && AllRows(rows, up) && AllActive(up) && GroupsAbove(up)
    && forall i :: 0 <= i < |up| - 1 ==> up[i + 1].parent == Some(up[i].id)
  }

  /** Every chain to the node runs through what has been climbed. */
  lemma {:induction false} ChainsRunThrough(rows: seq<Node>, up: seq<Node>, path: seq<Node>)
    requires Keyed(rows) && Climbed(rows, up) && Chain(rows, path) && path[|path| - 1].id == up[|up| - 1].id
    ensures |up| <= |path| && path[|path| - |up|..] == up
    decreases |up|
  {
    var x, y := up[|up| - 1], path[|path| - 1];
    assert Row(rows, x) && Row(rows, y);
    RowsById(rows, x, y);
    if |up| > 1 {
      assert up[(|up| - 2) + 1].parent == Some(up[|up| - 2].id);
      assert |path| > 1;
      assert path[(|path| - 2) + 1].parent == Some(path[|path| - 2].id);
      var lower, shorter := up[..|up| - 1], path[..|path| - 1];
      ChainsRunThrough(rows, lower, shorter);
      assert path == shorter + [y] && up == lower + [x];
    } else {
      assert up == [x];
    }
  }

  /** Above the stretch, a chain continues with a row that is new, active and a group. */
  lemma NextAbove(rows: seq<Node>, up: seq<Node>, path: seq<Node>, parent: int)
    requires Keyed(rows) && Climbed(rows, up) && up[0].parent == Some(parent)
    requires ActiveChain(rows, path) && path[|path| - 1].id == up[|up| - 1].id
    ensures parent !in IdsOf(up)
    ensures exists n :: Row(rows, n) && n.id == parent && n.active && n.action == Buttons
  {
    ChainsRunThrough(rows, up, path);
    var d := |path| - |up|;
    assert path[d] == up[0];
    assert d > 0 && path[(d - 1) + 1].parent == Some(path[d - 1].id);
    assert Row(rows, path[d - 1]);
    forall i | 0 <= i < |up| ensures up[i].id != parent {
      assert path[d + i] == up[i];
      ChainDistinct(rows, path, d - 1, d + i);
    }
  }

  method Get(rows: seq<Node>, id: int) returns (n: Option<Node>)
    ensures n.Some? ==> Row(rows, n.value) && n.value.id == id
    ensures n.None? ==> forall r :: Row(rows, r) ==> r.id != id
  {
    for i := 0 to |rows|
      invariant forall k :: 0 <= k < i ==> rows[k].id != id
    {
      if rows[i].id == id {
        return Some(rows[i]);
      }
    }
    return None;
  }

  lemma NotAccepted(rows: seq<Node>, up: seq<Node>, parent: int)
    requires Keyed(rows) && Climbed(rows, up) && up[0].parent == Some(parent)
    requires parent in IdsOf(up) || forall n :: Row(rows, n) && n.id == parent ==> !n.active || n.action != Buttons
    ensures !Accepted(rows, up[|up| - 1].id)
  {
    forall path: seq<Node> | ActiveChain(rows, path) ensures path[|path| - 1].id != up[|up| - 1].id {
      if path[|path| - 1].id == up[|up| - 1].id {
        NextAbove(rows, up, path, parent);
      }
    }
  }

  /** The new parent on top of the stretch; the rows left to see become fewer. */
  lemma ClimbOne(rows: seq<Node>, up: seq<Node>, n: Node)
    requires Climbed(rows, up) && Row(rows, n) && up[0].parent == Some(n.id) && n.active && n.action == Buttons
    ensures Climbed(rows, [n] + up) && ([n] + up)[|up|] == up[|up| - 1]
    ensures IdsOf([n] + up) == IdsOf(up) + {n.id}
  {
    var higher := [n] + up;
    forall id ensures id in IdsOf(higher) <==> id in IdsOf(up) + {n.id} {
      if id in IdsOf(up) {
        var i :| 0 <= i < |up| && up[i].id == id;
        assert higher[i + 1].id == id;
      }
      assert higher[0].id == n.id;
      if id in IdsOf(higher) {
        var i :| 0 <= i < |higher| && higher[i].id == id;
        assert i > 0 ==> up[i - 1].id == id;
      }
    }
    forall i | 0 <= i < |higher| - 1 ensures higher[i + 1].parent == Some(higher[i].id) && higher[i].action == Buttons {
      if i > 0 { assert up[(i - 1) + 1].parent == Some(up[i - 1].id); }
    }
    forall i | 0 <= i < |higher| ensures Row(rows, higher[i]) && higher[i].active {
      if i > 0 { assert Row(rows, up[i - 1]); }
    }
  }

  /** `get_active_node`: terminates on every table and accepts exactly the nodes below an active
      chain of groups. */
  method GetActiveNode(rows: seq<Node>, id: int) returns (r: Option<Node>)
    requires Keyed(rows)
    ensures r.Some? <==> Accepted(rows, id)
    ensures r.Some? ==> Row(rows, r.value) && r.value.id == id
  {
    var node := Get(rows, id);
    if node.None? || !node.value.active {
      forall path: seq<Node> | ActiveChain(rows, path) ensures path[|path| - 1].id != id {
        assert Row(rows, path[|path| - 1]);
        if node.Some? && path[|path| - 1].id == id { RowsById(rows, node.value, path[|path| - 1]); }
      }
      return None;
    }
    ghost var up := [node.value];
    var seen := {id};
    var parent := node.value.parent;
    assert IdsOf(up) == {id} by { assert up[0].id == id; }
    while parent.Some?
      invariant Climbed(rows, up) && up[|up| - 1] == node.value && up[0].parent == parent && IdsOf(up) == seen
      decreases |Ids(rows) - seen|, if parent.Some? then 1 else 0
    {
      var above := Get(rows, parent.value);
      if parent.value in seen || above.None? || !above.value.active || above.value.action != Buttons {
        forall n | Row(rows, n) && n.id == parent.value && parent.value !in seen
          ensures !n.active || n.action != Buttons
        {
          RowsById(rows, above.value, n);
        }
        NotAccepted(rows, up, parent.value);
        return None;
      }
      FewerLeft(rows, seen, above.value);
      ClimbOne(rows, up, above.value);
      seen := seen + {parent.value};
      up := [above.value] + up;
      parent := above.value.parent;
    }
    assert ActiveChain(rows, up);
    return node;
  }

  // ---- build_tree in place ----

  /** The rows of one parent, in table order. */
  method GroupByParent(rows: seq<Node>) returns (byParent: map<Option<int>, seq<Node>>)
    ensures forall p :: (if p in byParent then byParent[p] else []) == ChildrenOf(rows, p)
  {
    byParent := map[];
    assert rows[..0] == [];
    for i := 0 to |rows|
      invariant forall p :: (if p in byParent then byParent[p] else []) == ChildrenOf(rows[..i], p)
    {
      var n := rows[i];
      forall p { ChildrenOfAppend(rows[..i], n, p); }
      assert rows[..i + 1] == rows[..i] + [n];
      byParent := byParent[n.parent := (if n.parent in byParent then byParent[n.parent] else []) + [n]];
    }
    assert rows[..|rows|] == rows;
  }

  lemma {:induction false} ChildrenOfAppend(rows: seq<Node>, n: Node, p: Option<int>)
    ensures ChildrenOf(rows + [n], p) == ChildrenOf(rows, p) + (if n.parent == p then [n] else [])
  {
    if rows == [] {
      assert rows + [n] == [n];
      assert ChildrenOf([n][1..], p) == [];
    } else {
      ChildrenOfAppend(rows[1..], n, p);
      assert (rows + [n])[1..] == rows[1..] + [n];
    }
  }

  /** What one child contributes to the output. */
  ghost function Shown(rows: seq<Node>, activeOnly: bool, n: Node, ancestors: set<int>): seq<Tree> {
    if n.id in ancestors || (activeOnly && !n.active) then []
    else
      var children := Walk(rows, activeOnly, Some(n.id), ancestors + {n.id});
      if Kept(n, children) then [Tree(n, children)] else []
  }

  lemma {:induction false} KidsFrom(rows: seq<Node>, activeOnly: bool, kids: seq<Node>, i: nat, ancestors: set<int>)
    requires AllRows(rows, kids) && i < |kids|
    ensures AllRows(rows, kids[i..]) && AllRows(rows, kids[i + 1..]) && Row(rows, kids[i])
    ensures WalkKids(rows, activeOnly, kids[i..], ancestors)
            == Shown(rows, activeOnly, kids[i], ancestors) + WalkKids(rows, activeOnly, kids[i + 1..], ancestors)
  {
    assert kids[i..][0] == kids[i] && kids[i..][1..] == kids[i + 1..];
  }

  /** The sorted children lists. */
  ghost predicate SortedChildren(rows: seq<Node>, sorted: map<Option<int>, seq<Node>>) {
    forall p :: (if p in sorted then sorted[p] else []) == Siblings(rows, p)
  }

  /** `walk`, one list of children at a time. */
  method WalkOver(rows: seq<Node>, sorted: map<Option<int>, seq<Node>>, activeOnly: bool, parent: Option<int>,
                  ancestors: set<int>)
    returns (output: seq<Tree>)
    requires SortedChildren(rows, sorted)
    ensures output == Walk(rows, activeOnly, parent, ancestors)
    decreases |Ids(rows) - ancestors|, 1
  {
    output := [];
    var kids := if parent in sorted then sorted[parent] else [];
    SiblingsAreRows(rows, parent);
    ghost var whole := Walk(rows, activeOnly, parent, ancestors);
    assert kids == Siblings(rows, parent) && kids[0..] == kids;
    assert whole == [] + WalkKids(rows, activeOnly, kids[0..], ancestors);
    for i := 0 to |kids|
      invariant AllRows(rows, kids[i..])
      invariant output + WalkKids(rows, activeOnly, kids[i..], ancestors) == whole
    {
      KidsFrom(rows, activeOnly, kids, i, ancestors);
      var shown := WalkChild(rows, sorted, activeOnly, kids[i], ancestors);
      Regroup(output, shown, WalkKids(rows, activeOnly, kids[i + 1..], ancestors));
      output := output + shown;
    }
    assert kids[|kids|..] == [];
  }

  lemma Regroup(a: seq<Tree>, b: seq<Tree>, c: seq<Tree>)
    ensures a + (b + c) == (a + b) + c
  {
  }

  /** The body of the loop. */
  method WalkChild(rows: seq<Node>, sorted: map<Option<int>, seq<Node>>, activeOnly: bool, node: Node,
                   ancestors: set<int>)
    returns (shown: seq<Tree>)
    requires SortedChildren(rows, sorted) && Row(rows, node)
    ensures shown == Shown(rows, activeOnly, node, ancestors)
    decreases |Ids(rows) - ancestors|, 0
  {
    if node.id in ancestors || (activeOnly && !node.active) {
      return [];
    }
    FewerLeft(rows, ancestors, node);
    var children := WalkOver(rows, sorted, activeOnly, Some(node.id), ancestors + {node.id});
    return if Kept(node, children) then [Tree(node, children)] else [];
  }

  /** `build_tree`. */
  method Build(rows: seq<Node>, activeOnly: bool) returns (output: seq<Tree>)
    ensures output == BuildTree(rows, activeOnly)
  {
    var byParent := GroupByParent(rows);
    var sorted: map<Option<int>, seq<Node>> := map p | p in byParent :: Sorting.Sort(byParent[p], Before);
    output := WalkOver(rows, sorted, activeOnly, None, {});
  }
}
