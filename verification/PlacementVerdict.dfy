// What the engine says of an op a placement helper emitted, read off the tree before the call.
module PlacementVerdict {
  import opened Wrappers
  import opened Tree
  import opened Ops
  import opened ApplySafety
  import opened ApplyVerdict
  import opened Placements
  import D = DiffRoundTrip
  import L = PlacementLaws

  // -- A reorder changes no measure ------------------------------------------

  ghost predicate SameMeasures(r: Node, t: Node) {
    Size(r) == Size(t) && Depth(r) == Depth(t) && forall x :: Occ(x, r) == Occ(x, t)
  }

  lemma {:induction false} SameVerdict(r: Node, t: Node)
    requires SameMeasures(r, t)
    ensures WellFormed(r) <==> WellFormed(t)
  {
    if UniqueIds(r) {
      forall x ensures Occ(x, t) <= 1 { assert Occ(x, r) <= 1; }
    }
    if UniqueIds(t) {
      forall x ensures Occ(x, r) <= 1 { assert Occ(x, t) <= 1; }
    }
  }

  // A child list replaced by a permutation of it.
  lemma {:induction false} ShuffledMeasures(t: Node, p: Path, kids: seq<Node>)
    requires ValidPath(t, p) && IsLayout(NodeAt(t, p)) && multiset(kids) == multiset(NodeAt(t, p).kind.kids)
    ensures SameMeasures(Put(t, p, WithKids(NodeAt(t, p), kids)), t)
  {
    var n := NodeAt(t, p);
    var m := WithKids(n, kids);
    SizePermutation(kids, n.kind.kids);
    PermutedDepth(n, kids);
    NodeMeasure(n, 0);
    NodeMeasure(m, 0);
    PutSize(t, p, m);
    PutAt(t, p, m);
    PutPut(t, p, m, n);
    PutSame(t, p);
    PutShrinks(t, p, m);
    PutShrinks(Put(t, p, m), p, n);
    forall x ensures Occ(x, Put(t, p, m)) == Occ(x, t) {
      L.PermutedCounts(t, p, kids, x);
    }
  }

  lemma {:induction false} PermutedDepth(n: Node, kids: seq<Node>)
    requires IsLayout(n) && multiset(kids) == multiset(n.kind.kids)
    ensures Size(WithKids(n, kids)) == Size(n) && Depth(WithKids(n, kids)) == Depth(n)
  {
    var m := WithKids(n, kids);
    SizePermutation(kids, n.kind.kids);
    SameElements(kids, n.kind.kids);
    KidsShrink(n, kids);
    assert WithKids(m, n.kind.kids) == n;
    KidsShrink(m, n.kind.kids);
  }

  lemma {:induction false} SameElements(s: seq<Node>, t: seq<Node>)
    requires multiset(s) == multiset(t)
    ensures forall c :: c in s <==> c in t
  {
    forall c ensures c in s <==> c in t {
      assert c in multiset(s) <==> c in s;
      assert c in multiset(t) <==> c in t;
    }
  }

  lemma {:induction false} ReorderMeasures(dest: Id, order: seq<Id>, t: Node, p: Path, r: Node)
    requires FirstPath(dest, t) == Some(p) && ApplyReorder(dest, order, t) == Ok(r)
    requires DistinctIds(NodeAt(t, p).kind.kids)
    ensures SameMeasures(r, t)
  {
    var kids := NodeAt(t, p).kind.kids;
    ReorderedPermutes(kids, order);
    ShuffledMeasures(t, p, Reordered(kids, order));
  }

  // -- A batch of two --------------------------------------------------------

  // An accepted pair ran one op after the other.
  lemma {:induction false} PairRan(first: Op, second: Op, root: Node, mid: Node, r: Node)
    requires ApplyOne(first, root) == Ok(mid) && ApplyOne(Batch([first, second]), root) == Ok(r)
    ensures ApplyOne(second, mid) == Ok(r)
  {
    var ops := [first, second];
    L.BatchIs(ops, root);
    L.SeqStep(ops, 0, root, mid);
    assert ops[1..] == [second];
    LastRan(second, 1, mid, r);
  }

  lemma {:induction false} LastRan(op: Op, done: nat, t: Node, r: Node)
    requires ApplySeq([op], done, t) == Ok(r)
    ensures ApplyOne(op, t) == Ok(r)
  {
    assert [op][1..] == [];
    if ApplyOne(op, t).Ok? {
      L.LastStep(op, done, t, ApplyOne(op, t).value);
    }
  }

  // An op followed by a reorder of the list it left: the pair fits when the op does.
  lemma {:induction false} ReorderFits(first: Op, dest: Id, order: seq<Id>, root: Node, mid: Node, r: Node, p: Path)
    requires ApplyOne(first, root) == Ok(mid)
    requires ApplyOne(Batch([first, ReorderChildren(dest, order)]), root) == Ok(r)
    requires FirstPath(dest, mid) == Some(p) && DistinctIds(NodeAt(mid, p).kind.kids)
    ensures WellFormed(r) <==> WellFormed(mid)
  {
    PairRan(first, ReorderChildren(dest, order), root, mid, r);
    L.ReorderIs(ReorderChildren(dest, order), mid);
    ReorderMeasures(dest, order, mid, p, r);
    SameVerdict(r, mid);
  }

  // -- Moves -----------------------------------------------------------------

  lemma {:induction false} MoveOpIs(root: Node, m: Id, target: Target)
    requires MoveOp(root, m, target).Ok?
    ensures var op, move := MoveOp(root, m, target).value, MoveNode(m, target.parentId);
      op == move || exists order :: op == Batch([move, ReorderChildren(target.parentId, order)])
  {
  }

  // The list a move appended to.
  lemma {:induction false} MovedKids(root: Node, m: Id, dest: Id, mid: Node) returns (p: Path)
    requires UniqueIds(root) && ApplyOne(MoveNode(m, dest), root) == Ok(mid)
    requires FirstPath(dest, mid).Some?
    ensures FirstPath(dest, mid) == Some(p) && DistinctIds(NodeAt(mid, p).kind.kids)
  {
    UniqueKept(MoveNode(m, dest), root, mid);
    p := FirstPath(dest, mid).value;
    DistinctKids(mid, p);
  }

  // The op of a move is accepted exactly when the destination has depth left for the subtree;
  // on a tree already over the limits, exactly when the outcome is within them.
  lemma {:induction false} MoveOpVerdict(root: Node, m: Id, target: Target)
    requires UniqueIds(root) && MoveOp(root, m, target).Ok?
    ensures var op := MoveOp(root, m, target).value;
      && ApplyOne(op, root).Ok? && (Apply(op, root).Ok? <==> WithinLimits(ApplyOne(op, root).value))
      && (WellFormed(root) ==> (Apply(op, root).Ok? <==> Fits(MoveNode(m, target.parentId), root)))
  {
    L.MoveOpGuarded(root, m, target);
    if WellFormed(root) {
      MoveOpFits(root, m, target);
    }
  }

  lemma {:induction false} MoveOpFits(root: Node, m: Id, target: Target)
    requires WellFormed(root) && MoveOp(root, m, target).Ok?
    ensures var op := MoveOp(root, m, target).value;
      Apply(op, root).Ok? <==> Fits(MoveNode(m, target.parentId), root)
  {
    var op, dest, move := MoveOp(root, m, target).value, target.parentId, MoveNode(m, target.parentId);
    var r := L.MoveOpLands(root, m, target);
    GuardsExact(op, root, r);
    MoveOpIs(root, m, target);
    L.MoveAccepts(root, m, dest);
    MoveOneIs(move, root);
    var mid := ApplyMove(m, dest, root).value;
    ResultFits(move, root, mid);
    if op != move {
      var order :| op == Batch([move, ReorderChildren(dest, order)]);
      MoveThenReorder(root, m, dest, order, mid, r);
    }
  }

  lemma {:induction false} MoveOneIs(op: Op, t: Node)
    requires op.MoveNode?
    ensures ApplyOne(op, t) == ApplyMove(op.target, op.newParentId, t)
  {
  }

  lemma {:induction false} MoveThenReorder(root: Node, m: Id, dest: Id, order: seq<Id>, mid: Node, r: Node)
    requires UniqueIds(root) && ApplyOne(MoveNode(m, dest), root) == Ok(mid)
    requires ApplyOne(Batch([MoveNode(m, dest), ReorderChildren(dest, order)]), root) == Ok(r)
    ensures WellFormed(r) <==> WellFormed(mid)
  {
    PairRan(MoveNode(m, dest), ReorderChildren(dest, order), root, mid, r);
    L.ReorderIs(ReorderChildren(dest, order), mid);
    var p := MovedKids(root, m, dest, mid);
    ReorderFits(MoveNode(m, dest), dest, order, root, mid, r, p);
  }

  // -- Inserts ---------------------------------------------------------------

  // Where the child went, its siblings still differ, whatever the child holds itself.
  lemma {:induction false} InsertedKids(root: Node, dest: Id, child: Node, mid: Node) returns (p: Path)
    requires UniqueIds(root) && ApplyInsert(dest, child, root) == Ok(mid)
    ensures FirstPath(dest, mid) == Some(p) && DistinctIds(NodeAt(mid, p).kind.kids)
  {
    p := FirstPath(dest, root).value;
    var n := NodeAt(root, p);
    var m := WithKids(n, n.kind.kids + [child]);
    PutAt(root, p, m);
    DistinctKids(root, p);
    NewKid(root, p, child);
    DestOnce(root, dest, p, child, mid);
  }

  lemma {:induction false} NewKid(root: Node, p: Path, child: Node)
    requires UniqueIds(root) && ValidPath(root, p) && !SharesId(child, root)
    ensures DistinctIds(NodeAt(root, p).kind.kids + [child])
  {
    var kids := NodeAt(root, p).kind.kids;
    DistinctKids(root, p);
    forall i | 0 <= i < |kids| ensures kids[i].id != child.id {
      D.KidPath(root, p, i);
      PathOcc(root, p + [i]);
      assert Occ(child.id, child) >= 1;
      Disjoint(child, root, child.id);
    }
  }

  lemma {:induction false} DestOnce(root: Node, dest: Id, p: Path, child: Node, mid: Node)
    requires UniqueIds(root) && FirstPath(dest, root) == Some(p) && IsLayout(NodeAt(root, p))
    requires !SharesId(child, root)
    requires mid == Put(root, p, WithKids(NodeAt(root, p), NodeAt(root, p).kind.kids + [child]))
    ensures FirstPath(dest, mid) == Some(p)
  {
    var n := NodeAt(root, p);
    var m := WithKids(n, n.kind.kids + [child]);
    PutAt(root, p, m);
    D.KidsOcc(root, p, n.kind.kids + [child], dest);
    OccConcat(dest, n.kind.kids, [child]);
    SingleOcc(child, dest);
    if Occ(dest, child) >= 1 {
      Disjoint(child, root, dest);
    }
    assert Occ(dest, root) <= 1;
    PathOcc(mid, p);
    var q := FirstPath(dest, mid).value;
    if q != p {
      PathsOcc(mid, p, q);
    }
  }

  lemma {:induction false} PlaceOpIs(root: Node, child: Node, target: Target)
    requires PlaceOp(root, child, target).Ok?
    ensures var op, insert := PlaceOp(root, child, target).value, InsertChild(target.parentId, child);
      op == insert || exists order :: op == Batch([insert, ReorderChildren(target.parentId, order)])
    ensures ApplyInsert(target.parentId, child, root).Ok?
  {
  }

  // The op of a placed insert is accepted exactly when the child repeats no id of its own and
  // the destination has room for it; on a tree already over the limits, a child without
  // repeats exactly when the outcome is within them.
  lemma {:induction false} PlaceOpVerdict(root: Node, child: Node, target: Target)
    requires UniqueIds(root) && PlaceOp(root, child, target).Ok?
    ensures var op := PlaceOp(root, child, target).value;
      && (UniqueIds(child) ==>
            ApplyOne(op, root).Ok? && (Apply(op, root).Ok? <==> WithinLimits(ApplyOne(op, root).value)))
      && (WellFormed(root) ==> (Apply(op, root).Ok? <==> Fits(InsertChild(target.parentId, child), root)))
  {
    if UniqueIds(child) {
      L.PlaceOpGuarded(root, child, target);
    }
    if WellFormed(root) {
      PlaceOpFits(root, child, target);
    }
  }

  lemma {:induction false} PlaceOpFits(root: Node, child: Node, target: Target)
    requires WellFormed(root) && PlaceOp(root, child, target).Ok?
    ensures var op := PlaceOp(root, child, target).value;
      Apply(op, root).Ok? <==> Fits(InsertChild(target.parentId, child), root)
  {
    var op := PlaceOp(root, child, target).value;
    var dest, insert := target.parentId, InsertChild(target.parentId, child);
    PlaceOpIs(root, child, target);
    var mid := ApplyInsert(dest, child, root).value;
    ResultFits(insert, root, mid);
    if op == insert {
      GuardsExact(insert, root, mid);
    } else {
      var order :| op == Batch([insert, ReorderChildren(dest, order)]);
      if UniqueIds(child) {
        var r := L.PlaceOpLands(root, child, target);
      }
      InsertThenReorder(root, child, dest, order, mid);
    }
  }

  lemma {:induction false} InsertThenReorder(root: Node, child: Node, dest: Id, order: seq<Id>, mid: Node)
    requires WellFormed(root) && ApplyInsert(dest, child, root) == Ok(mid)
    requires var op := Batch([InsertChild(dest, child), ReorderChildren(dest, order)]);
      UniqueIds(child) ==> ApplyOne(op, root).Ok?
    ensures var op := Batch([InsertChild(dest, child), ReorderChildren(dest, order)]);
      Apply(op, root).Ok? <==> WellFormed(mid)
  {
    var insert := InsertChild(dest, child);
    var op := Batch([insert, ReorderChildren(dest, order)]);
    if ApplyOne(op, root).Ok? {
      var r := ApplyOne(op, root).value;
      var p := InsertedKids(root, dest, child, mid);
      GuardsExact(op, root, r);
      ReorderFits(insert, dest, order, root, mid, r, p);
    } else {
      Appended(root, FirstPath(dest, root).value, child);
      InsertIds(root, child, mid);
    }
  }
}
