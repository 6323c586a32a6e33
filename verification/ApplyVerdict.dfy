// What the guards add to the reducer, op kind by op kind: when the engine accepts an op the
// dry run accepts, read off the op and the tree before the call.
module ApplyVerdict {
  import opened Wrappers
  import opened Tree
  import opened Ops
  import opened ApplySafety
  import D = DiffRoundTrip

  // -- The condition ---------------------------------------------------------

  // The installed nodes repeat no id, and what stays of the tree holds none of theirs.
  ghost predicate NewIdsOnly(installed: seq<Node>, replaced: seq<Node>, tree: Node) {
    forall x | OccSeq(x, installed) >= 1 :: OccSeq(x, installed) == 1 && Occ(x, tree) == OccSeq(x, replaced)
  }

  // Nodes standing one level below a path, in place of others.
  ghost predicate RoomFor(installed: seq<Node>, replaced: seq<Node>, at: Path, tree: Node) {
    && |at| + 1 + DepthSeq(installed) <= MAX_NODE_DEPTH
    && Size(tree) - SizeSeq(replaced) + SizeSeq(installed) <= MAX_NODES
  }

  // What an op that passes the dry run still has to meet. Only a batch that can grow the tree
  // is judged by its outcome.
  ghost predicate Fits(op: Op, tree: Node) {
    match op
    case ReplaceRoot(node) => WellFormed(node)
    case InsertChild(parentId, child) =>
      var at := FirstPath(parentId, tree);
      UniqueIds(child) && (at.Some? ==> RoomFor([child], [], at.value, tree))
    case MoveNode(target, newParentId) =>
      var at, moving := FirstPath(newParentId, tree), FindNode(target, tree);
      at.Some? && moving.Some? ==> |at.value| + 1 + Depth(moving.value) <= MAX_NODE_DEPTH
    case EditNode(target, kind) =>
      var at := FirstPath(target, tree);
      at.Some? && kind.kids != [] ==>
        var was := NodeAt(tree, at.value).kind.kids;
        NewIdsOnly(kind.kids, was, tree) && RoomFor(kind.kids, was, at.value, tree)
    case UpdateState(target, state) =>
      var at := FirstPath(target, tree);
      at.Some? && StateNodes(state) != [] ==>
        var was := StateNodes(NodeAt(tree, at.value).state);
        NewIdsOnly(StateNodes(state), was, tree) && RoomFor(StateNodes(state), was, at.value, tree)
    case Batch(ops) => OpCanGrow(op) && ApplyOne(op, tree).Ok? ==> WellFormed(ApplyOne(op, tree).value)
    case _ => true
  }

  // -- Measures of a rewritten tree ------------------------------------------

  lemma {:induction false} DepthConcat(s: seq<Node>, t: seq<Node>, d: nat)
    ensures DepthSeq(s + t) <= d <==> DepthSeq(s) <= d && DepthSeq(t) <= d
  {
    if s == [] {
      assert s + t == t;
    } else {
      assert (s + t)[1..] == s[1..] + t;
      DepthConcat(s[1..], t, d);
    }
  }

  lemma {:induction false} NodeMeasure(n: Node, d: nat)
    ensures Depth(n) <= d + 1 <==> DepthSeq(n.kind.kids) <= d && DepthSeq(StateNodes(n.state)) <= d
    ensures Size(n) == 1 + SizeSeq(n.kind.kids) + SizeSeq(StateNodes(n.state))
  {
    DepthConcat(n.kind.kids, StateNodes(n.state), d);
  }

  lemma {:induction false} PutSize(n: Node, p: Path, m: Node)
    requires ValidPath(n, p)
    ensures Size(Put(n, p, m)) == Size(n) - Size(NodeAt(n, p)) + Size(m)
    decreases |p|
  {
    if p != [] {
      var c := Put(Slots(n)[p[0]], p[1..], m);
      PutSize(Slots(n)[p[0]], p[1..], m);
      SizeUpdate(Slots(n), p[0], c);
      SlotSizes(n);
      SlotSizes(WithSlot(n, p[0], c));
    }
  }

  // In a tree within a depth, a rewritten position decides the depth alone.
  lemma {:induction false} PutDepth(n: Node, p: Path, m: Node, d: nat)
    requires ValidPath(n, p) && Depth(n) <= d
    ensures Depth(Put(n, p, m)) <= d <==> |p| + Depth(m) <= d
    decreases |p|
  {
    if p != [] {
      var i, c := p[0], Put(Slots(n)[p[0]], p[1..], m);
      var r := WithSlot(n, i, c);
      DepthBound(Slots(n), d - 1);
      PutDepth(Slots(n)[i], p[1..], m, d - 1);
      DepthBound(Slots(r), d - 1);
      assert Slots(r)[i] == c;
      if Depth(c) <= d - 1 {
        forall k | 0 <= k < |Slots(r)| ensures Depth(Slots(r)[k]) <= d - 1 {
          if k != i { assert Slots(r)[k] == Slots(n)[k]; }
        }
      }
    }
  }

  lemma {:induction false} DepthAt(n: Node, p: Path)
    requires ValidPath(n, p)
    ensures |p| + Depth(NodeAt(n, p)) <= Depth(n)
    decreases |p|
  {
    if p != [] {
      DepthAt(Slots(n)[p[0]], p[1..]);
      DepthSlot(Slots(n), p[0]);
    }
  }

  // -- One op kind after another ---------------------------------------------

  lemma {:induction false} EditIds(tree: Node, p: Path, kind: Kind)
    requires UniqueIds(tree) && ValidPath(tree, p)
    ensures var n := NodeAt(tree, p);
      UniqueIds(Put(tree, p, n.(kind := kind))) <==> NewIdsOnly(kind.kids, n.kind.kids, tree)
  {
    var n := NodeAt(tree, p);
    var m := n.(kind := kind);
    var r := Put(tree, p, m);
    forall x
      ensures Occ(x, r) == Occ(x, tree) - OccSeq(x, n.kind.kids) + OccSeq(x, kind.kids)
      ensures OccSeq(x, n.kind.kids) <= Occ(x, tree) <= 1
    {
      OccPut(x, tree, p, m);
      OccAt(x, tree, p);
      OccConcat(x, n.kind.kids, StateNodes(n.state));
      OccConcat(x, kind.kids, StateNodes(n.state));
    }
    Exchanged(tree, r, kind.kids, n.kind.kids);
  }

  lemma {:induction false} StateIds(tree: Node, p: Path, state: State)
    requires UniqueIds(tree) && ValidPath(tree, p)
    ensures var n := NodeAt(tree, p);
      UniqueIds(Put(tree, p, n.(state := state))) <==> NewIdsOnly(StateNodes(state), StateNodes(n.state), tree)
  {
    var n := NodeAt(tree, p);
    var m := n.(state := state);
    var r := Put(tree, p, m);
    forall x
      ensures Occ(x, r) == Occ(x, tree) - OccSeq(x, StateNodes(n.state)) + OccSeq(x, StateNodes(state))
      ensures OccSeq(x, StateNodes(n.state)) <= Occ(x, tree) <= 1
    {
      OccPut(x, tree, p, m);
      OccAt(x, tree, p);
      OccConcat(x, n.kind.kids, StateNodes(n.state));
      OccConcat(x, n.kind.kids, StateNodes(state));
    }
    Exchanged(tree, r, StateNodes(state), StateNodes(n.state));
  }

  lemma {:induction false} Exchanged(tree: Node, r: Node, installed: seq<Node>, replaced: seq<Node>)
    requires forall x :: Occ(x, r) == Occ(x, tree) - OccSeq(x, replaced) + OccSeq(x, installed)
    requires forall x :: OccSeq(x, replaced) <= Occ(x, tree) <= 1
    ensures UniqueIds(r) <==> NewIdsOnly(installed, replaced, tree)
  {
    if UniqueIds(r) {
      forall x | OccSeq(x, installed) >= 1
        ensures OccSeq(x, installed) == 1 && Occ(x, tree) == OccSeq(x, replaced)
      {
        assert Occ(x, r) <= 1;
      }
    }
    if NewIdsOnly(installed, replaced, tree) {
      forall x ensures Occ(x, r) <= 1 {
        assert OccSeq(x, replaced) <= Occ(x, tree) <= 1;
      }
    }
  }

  lemma {:induction false} EditFits(tree: Node, p: Path, kind: Kind)
    requires WellFormed(tree) && ValidPath(tree, p)
    ensures var n := NodeAt(tree, p);
      WellFormed(Put(tree, p, n.(kind := kind))) <==>
        NewIdsOnly(kind.kids, n.kind.kids, tree) && RoomFor(kind.kids, n.kind.kids, p, tree)
  {
    var n := NodeAt(tree, p);
    var m := n.(kind := kind);
    EditIds(tree, p, kind);
    PutSize(tree, p, m);
    PutDepth(tree, p, m, MAX_NODE_DEPTH);
    DepthAt(tree, p);
    NodeMeasure(n, MAX_NODE_DEPTH - |p| - 1);
    NodeMeasure(m, MAX_NODE_DEPTH - |p| - 1);
  }

  lemma {:induction false} StateFits(tree: Node, p: Path, state: State)
    requires WellFormed(tree) && ValidPath(tree, p)
    ensures var n := NodeAt(tree, p);
      WellFormed(Put(tree, p, n.(state := state))) <==>
        && NewIdsOnly(StateNodes(state), StateNodes(n.state), tree)
        && RoomFor(StateNodes(state), StateNodes(n.state), p, tree)
  {
    var n := NodeAt(tree, p);
    var m := n.(state := state);
    StateIds(tree, p, state);
    PutSize(tree, p, m);
    PutDepth(tree, p, m, MAX_NODE_DEPTH);
    DepthAt(tree, p);
    NodeMeasure(n, MAX_NODE_DEPTH - |p| - 1);
    NodeMeasure(m, MAX_NODE_DEPTH - |p| - 1);
  }

  // Nothing installed: the condition holds by itself.
  lemma {:induction false} NothingInstalled(replaced: seq<Node>, p: Path, tree: Node)
    requires WellFormed(tree) && ValidPath(tree, p)
    ensures NewIdsOnly([], replaced, tree) && RoomFor([], replaced, p, tree)
  {
    DepthAt(tree, p);
  }

  lemma {:induction false} Appended(t: Node, p: Path, child: Node)
    requires ValidPath(t, p) && IsLayout(NodeAt(t, p)) && Depth(t) <= MAX_NODE_DEPTH
    ensures var r := Put(t, p, WithKids(NodeAt(t, p), NodeAt(t, p).kind.kids + [child]));
      && Size(r) == Size(t) + Size(child)
      && (Depth(r) <= MAX_NODE_DEPTH <==> |p| + 1 + Depth(child) <= MAX_NODE_DEPTH)
      && forall x :: Occ(x, r) == Occ(x, t) + Occ(x, child)
  {
    var n := NodeAt(t, p);
    var m := WithKids(n, n.kind.kids + [child]);
    PutSize(t, p, m);
    PutDepth(t, p, m, MAX_NODE_DEPTH);
    DepthAt(t, p);
    NodeMeasure(n, MAX_NODE_DEPTH - |p| - 1);
    NodeMeasure(m, MAX_NODE_DEPTH - |p| - 1);
    SizeConcat(n.kind.kids, [child]);
    DepthConcat(n.kind.kids, [child], MAX_NODE_DEPTH - |p| - 1);
    Single(child);
    forall x ensures Occ(x, Put(t, p, m)) == Occ(x, t) + Occ(x, child) {
      D.KidsOcc(t, p, n.kind.kids + [child], x);
      OccConcat(x, n.kind.kids, [child]);
      SingleOcc(child, x);
    }
  }

  lemma {:induction false} Single(n: Node)
    ensures SizeSeq([n]) == Size(n) && DepthSeq([n]) == Depth(n)
  {
    assert [n][1..] == [];
  }

  lemma {:induction false} SingleOcc(n: Node, x: Id)
    ensures OccSeq(x, [n]) == Occ(x, n)
  {
    assert [n][1..] == [];
  }

  lemma {:induction false} InsertIds(tree: Node, child: Node, r: Node)
    requires UniqueIds(tree) && !SharesId(child, tree)
    requires forall x :: Occ(x, r) == Occ(x, tree) + Occ(x, child)
    ensures UniqueIds(r) <==> UniqueIds(child)
  {
    if UniqueIds(r) {
      forall x ensures Occ(x, child) <= 1 {
        assert Occ(x, r) <= 1;
      }
    }
    if UniqueIds(child) {
      forall x ensures Occ(x, r) <= 1 {
        assert Occ(x, child) <= 1 && Occ(x, tree) <= 1;
        if Occ(x, child) == 1 {
          Disjoint(child, tree, x);
        }
      }
    }
  }

  lemma {:induction false} InsertFits(tree: Node, parentId: Id, child: Node)
    requires WellFormed(tree) && ApplyInsert(parentId, child, tree).Ok?
    ensures WellFormed(ApplyInsert(parentId, child, tree).value) <==> Fits(InsertChild(parentId, child), tree)
  {
    var p := FirstPath(parentId, tree).value;
    Appended(tree, p, child);
    Single(child);
    InsertIds(tree, child, ApplyInsert(parentId, child, tree).value);
  }

  // -- Moves -----------------------------------------------------------------

  // With child i of the node at `p` taken out, a position of the result was one at the same depth.
  lemma {:induction false} PathBack(t: Node, p: Path, i: nat, q: Path) returns (was: Path)
    requires ValidPath(t, p) && IsLayout(NodeAt(t, p)) && i < |NodeAt(t, p).kind.kids|
    requires ValidPath(Put(t, p, Cut(NodeAt(t, p), i)), q)
    ensures ValidPath(t, was) && |was| == |q|
    ensures NodeAt(t, was).id == NodeAt(Put(t, p, Cut(NodeAt(t, p), i)), q).id
    decreases |q|
  {
    was := [];
    if q != [] {
      if p == [] {
        was := [if q[0] < i then q[0] else q[0] + 1] + q[1..];
        CutSlot(t, i, q[0]);
        assert was[1..] == q[1..];
      } else if q[0] == p[0] {
        var rest := PathBack(Slots(t)[p[0]], p[1..], i, q[1..]);
        was := [q[0]] + rest;
        assert was[1..] == rest;
      } else {
        was := q;
      }
    }
  }

  function Cut(n: Node, i: nat): Node
    requires i < |n.kind.kids|
  {
    WithKids(n, n.kind.kids[..i] + n.kind.kids[i + 1..])
  }

  lemma {:induction false} CutSlot(n: Node, i: nat, k: nat)
    requires IsLayout(n) && i < |n.kind.kids| && k < |Slots(Cut(n, i))|
    ensures var l := if k < i then k else k + 1; l < |Slots(n)| && Slots(n)[l] == Slots(Cut(n, i))[k]
  {
    SlotParts(n);
    SlotParts(Cut(n, i));
  }

  lemma {:induction false} CutSeq(kids: seq<Node>, i: nat)
    requires i < |kids|
    ensures SizeSeq(kids[..i] + kids[i + 1..]) == SizeSeq(kids) - Size(kids[i])
  {
    SizeConcat(kids[..i], kids[i + 1..]);
    SizeConcat(kids[..i], [kids[i]] + kids[i + 1..]);
    SizeConcat([kids[i]], kids[i + 1..]);
    Single(kids[i]);
    assert kids == kids[..i] + ([kids[i]] + kids[i + 1..]);
  }

  lemma {:induction false} CutSize(t: Node, p: Path, i: nat)
    requires ValidPath(t, p) && IsLayout(NodeAt(t, p)) && i < |NodeAt(t, p).kind.kids|
    ensures Size(Put(t, p, Cut(NodeAt(t, p), i))) == Size(t) - Size(NodeAt(t, p).kind.kids[i])
  {
    var n := NodeAt(t, p);
    PutSize(t, p, Cut(n, i));
    NodeMeasure(n, 0);
    NodeMeasure(Cut(n, i), 0);
    CutSeq(n.kind.kids, i);
  }

  // Where an accepted move takes the node from, and where the destination is then.
  lemma {:induction false} MoveSteps(tree: Node, target: Id, newParentId: Id)
    returns (p: Path, i: nat, removed: Node, q: Path)
    requires UniqueIds(tree) && ApplyMove(target, newParentId, tree).Ok?
    ensures ValidPath(tree, p) && IsLayout(NodeAt(tree, p)) && i < |NodeAt(tree, p).kind.kids|
    ensures FindNode(target, tree) == Some(NodeAt(tree, p).kind.kids[i])
    ensures removed == Put(tree, p, Cut(NodeAt(tree, p), i)) && ApplyRemove(target, tree) == Ok(removed)
    ensures FirstPath(newParentId, removed) == Some(q)
    ensures ApplyMove(target, newParentId, tree) == ApplyInsert(newParentId, NodeAt(tree, p).kind.kids[i], removed)
  {
    p := FirstParent(target, tree).value;
    var kids := NodeAt(tree, p).kind.kids;
    i :| 0 <= i < |kids| && Ids(kids)[i] == target;
    D.KidPath(tree, p, i);
    D.PathOfId(tree, p + [i]);
    D.ParentOfKid(tree, p, i);
    var n1;
    removed, n1 := D.AfterRemove(tree, p, i);
    q := FirstPath(newParentId, removed).value;
  }

  lemma {:induction false} MoveFits(tree: Node, target: Id, newParentId: Id)
    requires WellFormed(tree) && ApplyMove(target, newParentId, tree).Ok?
    ensures WithinLimits(ApplyMove(target, newParentId, tree).value) <==> Fits(MoveNode(target, newParentId), tree)
  {
    var p, i, removed, q := MoveSteps(tree, target, newParentId);
    var moving := NodeAt(tree, p).kind.kids[i];
    DepthKept(tree, p, i, q, newParentId);
    CutSize(tree, p, i);
    RemoveShrinks(target, tree);
    MovedIn(removed, q, newParentId, moving);
  }

  lemma {:induction false} DepthKept(tree: Node, p: Path, i: nat, q: Path, x: Id)
    requires UniqueIds(tree) && ValidPath(tree, p) && IsLayout(NodeAt(tree, p)) && i < |NodeAt(tree, p).kind.kids|
    requires FirstPath(x, Put(tree, p, Cut(NodeAt(tree, p), i))) == Some(q)
    ensures FirstPath(x, tree).Some? && |FirstPath(x, tree).value| == |q|
  {
    var was := PathBack(tree, p, i, q);
    PathOcc(tree, was);
    UniquePath(tree, was, FirstPath(x, tree).value);
  }

  lemma {:induction false} MovedIn(removed: Node, q: Path, newParentId: Id, moving: Node)
    requires FirstPath(newParentId, removed) == Some(q) && ApplyInsert(newParentId, moving, removed).Ok?
    requires Depth(removed) <= MAX_NODE_DEPTH
    ensures var r := ApplyInsert(newParentId, moving, removed).value;
      && Size(r) == Size(removed) + Size(moving)
      && (Depth(r) <= MAX_NODE_DEPTH <==> |q| + 1 + Depth(moving) <= MAX_NODE_DEPTH)
  {
    Appended(removed, q, moving);
  }

  // -- The verdict -----------------------------------------------------------

  // On a well-formed tree the engine accepts exactly the ops the dry run accepts that also
  // fit, and then does what the reducer does. An op the growth test lets pass always fits.
  lemma {:induction false} ApplyExactly(op: Op, tree: Node)
    requires WellFormed(tree)
    ensures Apply(op, tree).Ok? <==> CanApply(op, tree) && Fits(op, tree)
    ensures Apply(op, tree).Ok? ==> Apply(op, tree) == ApplyOne(op, tree)
    ensures !OpCanGrow(op) ==> (Apply(op, tree).Ok? <==> CanApply(op, tree))
  {
    if CanApply(op, tree) {
      var r := ApplyOne(op, tree).value;
      GuardsExact(op, tree, r);
      ResultFits(op, tree, r);
      if !OpCanGrow(op) {
        UnchargedFits(op, tree, r);
      }
    }
  }

  lemma {:induction false} GuardsExact(op: Op, tree: Node, r: Node)
    requires WellFormed(tree) && ApplyOne(op, tree) == Ok(r)
    ensures Apply(op, tree).Ok? <==> WellFormed(r)
    ensures Apply(op, tree).Ok? ==> Apply(op, tree) == Ok(r)
  {
    if Apply(op, tree).Ok? {
      ApplyKeepsWellFormed(op, tree);
    }
    if WellFormed(r) {
      D.GuardsPass(op, tree, r);
    }
  }

  lemma {:induction false} UnchargedFits(op: Op, tree: Node, r: Node)
    requires WellFormed(tree) && ApplyOne(op, tree) == Ok(r) && !OpCanGrow(op)
    ensures WellFormed(r)
  {
    UnchargedInstallsNothing(op);
    UniqueKept(op, tree, r);
    UnchargedShrinks(op, tree, r);
  }

  lemma {:induction false} ResultFits(op: Op, tree: Node, r: Node)
    requires WellFormed(tree) && ApplyOne(op, tree) == Ok(r)
    ensures WellFormed(r) <==> Fits(op, tree)
  {
    match op {
      case ReplaceRoot(node) =>
      case InsertChild(parentId, child) => InsertFits(tree, parentId, child);
      case MoveNode(target, newParentId) =>
        UniqueKept(op, tree, r);
        MoveFits(tree, target, newParentId);
      case EditNode(target, kind) =>
        var p := FirstPath(target, tree).value;
        EditFits(tree, p, kind);
        NothingInstalled(NodeAt(tree, p).kind.kids, p, tree);
      case UpdateState(target, state) =>
        var p := FirstPath(target, tree).value;
        StateFits(tree, p, state);
        NothingInstalled(StateNodes(NodeAt(tree, p).state), p, tree);
      case Batch(_) =>
        if !OpCanGrow(op) {
          UnchargedFits(op, tree, r);
        }
      case _ => UnchargedFits(op, tree, r);
    }
  }
}
