/** What the menu shows, exactly: for the shop, which hides inactive nodes, and for the editor, which does not. */
module MenuShown {
  import opened Wrappers
  import opened Menu
  import opened MenuAgreement

  /** Below the nodes of `prefix`, these go on down to a node that is no group; none of them is hidden, and the
      invoices among them are valid. */
  ghost predicate EndsWell(rows: seq<Node>, activeOnly: bool, prefix: seq<Node>, rest: seq<Node>) {
    && |rest| > 0 && Chain(rows, prefix + rest) && rest[|rest| - 1].action != Buttons
    && forall i :: 0 <= i < |rest| ==>
         && (activeOnly ==> rest[i].active)
         && (rest[i].action == Invoice ==> rest[i].target.Some?)
  }

  /** The first of them, and the rest below it. */
  lemma EndsBelow(rows: seq<Node>, activeOnly: bool, prefix: seq<Node>, rest: seq<Node>)
    requires |rest| > 0 && OnWalk(rows, prefix)
    ensures EndsWell(rows, activeOnly, prefix, rest)
            <==> && Chain(rows, prefix + [rest[0]]) && (activeOnly ==> rest[0].active)
                 && (rest[0].action == Invoice ==> rest[0].target.Some?)
                 && (if |rest| == 1 then rest[0].action != Buttons
                     else EndsWell(rows, activeOnly, prefix + [rest[0]], rest[1..]))
  {
    var whole, start := prefix + rest, prefix + [rest[0]];
    assert start + rest[1..] == whole;
    if Chain(rows, whole) {
      forall i | 0 <= i < |start| ensures start[i] == whole[i] && Row(rows, start[i]) {
        assert Row(rows, whole[i]);
      }
      forall i | 0 <= i < |start| - 1 ensures start[i + 1].parent == Some(start[i].id) {
        assert whole[i + 1].parent == Some(whole[i].id);
      }
    }
    assert |rest| == 1 ==> whole == start;
  }

  lemma FirstFits(rows: seq<Node>, prefix: seq<Node>, n: Node)
    requires Chain(rows, prefix + [n])
    ensures Row(rows, n) && n.parent == ParentOf(prefix)
  {
    var whole := prefix + [n];
    assert Row(rows, whole[|prefix|]);
    if prefix != [] {
      assert whole[(|prefix| - 1) + 1].parent == Some(whole[|prefix| - 1].id);
    }
  }

  /** Whatever is shown leads on to something that is no group. */
  lemma {:induction false} ShownEndsWell(rows: seq<Node>, activeOnly: bool, prefix: seq<Node>, path: seq<Node>)
    requires Keyed(rows) && OnWalk(rows, prefix)
    requires Occurs(Walk(rows, activeOnly, ParentOf(prefix), IdsOf(prefix)), path)
    ensures exists more: seq<Node> :: EndsWell(rows, activeOnly, prefix, path + more)
    decreases |Ids(rows) - IdsOf(prefix)|
  {
    var n := path[0];
    WalkEmits(rows, activeOnly, prefix, path);
    ExtendChain(rows, prefix, n);
    CycleTestNeverFires(rows, prefix, n);
    FewerLeft(rows, IdsOf(prefix), n);
    var children := Walk(rows, activeOnly, ParentOf(prefix + [n]), IdsOf(prefix + [n]));
    if |path| > 1 {
      ShownEndsWell(rows, activeOnly, prefix + [n], path[1..]);
      LongerEndsWell(rows, activeOnly, prefix, path, path[1..]);
    } else if n.action == Buttons {
      assert OccursIn(children[0], [children[0].node]) && Occurs(children, [children[0].node]);
      ShownEndsWell(rows, activeOnly, prefix + [n], [children[0].node]);
      LongerEndsWell(rows, activeOnly, prefix, path, [children[0].node]);
    } else {
      assert path + [] == path;
      EndsBelow(rows, activeOnly, prefix, path + []);
    }
  }

  /** What ends well below the first node of a path ends well from that node on. */
  lemma LongerEndsWell(rows: seq<Node>, activeOnly: bool, prefix: seq<Node>, path: seq<Node>, below: seq<Node>)
    requires |path| > 0 && |below| > 0 && OnWalk(rows, prefix) && Chain(rows, prefix + [path[0]])
    requires (activeOnly ==> path[0].active) && (path[0].action == Invoice ==> path[0].target.Some?)
    requires |path| > 1 ==> below == path[1..]
    requires exists more: seq<Node> :: EndsWell(rows, activeOnly, prefix + [path[0]], below + more)
    ensures exists more: seq<Node> :: EndsWell(rows, activeOnly, prefix, path + more)
  {
    var more: seq<Node> :| EndsWell(rows, activeOnly, prefix + [path[0]], below + more);
    var rest := if |path| > 1 then more else below + more;
    assert (path + rest)[1..] == below + more;
    EndsBelow(rows, activeOnly, prefix, path + rest);
  }

  lemma {:induction false} WhatEndsWellIsShown(rows: seq<Node>, activeOnly: bool, prefix: seq<Node>, path: seq<Node>,
                                               more: seq<Node>)
    requires Keyed(rows) && OnWalk(rows, prefix) && |path| > 0 && EndsWell(rows, activeOnly, prefix, path + more)
    ensures Occurs(Walk(rows, activeOnly, ParentOf(prefix), IdsOf(prefix)), path)
    decreases |path| + |more|
  {
    var n := path[0];
    EndsBelow(rows, activeOnly, prefix, path + more);
    FirstFits(rows, prefix, n);
    if |path| > 1 {
      assert (path + more)[1..] == path[1..] + more;
      WhatEndsWellIsShown(rows, activeOnly, prefix + [n], path[1..], more);
    } else if more != [] {
      assert (path + more)[1..] == more + [];
      WhatEndsWellIsShown(rows, activeOnly, prefix + [n], more, []);
    }
    WalkEmits(rows, activeOnly, prefix, path);
  }

  /** A path is in the menu if and only if it goes down from a root through nodes that are not hidden and valid
      invoices, and can be continued so until it ends at a node that is no group. */
  lemma {:induction false} ShownIff(rows: seq<Node>, activeOnly: bool, path: seq<Node>)
    requires Keyed(rows) && |path| > 0
    ensures Occurs(BuildTree(rows, activeOnly), path)
            <==> exists more: seq<Node> :: EndsWell(rows, activeOnly, [], path + more)
  {
    assert IdsOf([]) == {};
    if Occurs(BuildTree(rows, activeOnly), path) {
      ShownEndsWell(rows, activeOnly, [], path);
    }
    if more: seq<Node> :| EndsWell(rows, activeOnly, [], path + more) {
      WhatEndsWellIsShown(rows, activeOnly, [], path, more);
    }
  }
}
