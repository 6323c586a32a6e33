// The merge as it runs: one list of conflicts that the move pre-pass and the recursion
// both append to.
module MergeRun {
  import opened Wrappers
  import opened Tree
  import opened Ordinal
  import opened Merge

  class Ledger {
    var cells: seq<Conflict>

    constructor ()
      ensures cells == []
    {
      cells := [];
    }

    method Append(more: seq<Conflict>)
      modifies this
      ensures cells == old(cells) + more
    {
      cells := cells + more;
    }
  }

  method DetectConcurrentMoves(ledger: Ledger, res: Resolution, base: Node, a: Node, b: Node)
    modifies ledger
    ensures ledger.cells == old(ledger.cells) + DetectMoves(res, base, a, b)
  {
    var basePlaces, aPlaces, bPlaces := PlacementOf(base, ""), PlacementOf(a, ""), PlacementOf(b, "");
    var baseNodes, aNodes, bNodes := NodeIndex(base), NodeIndex(a), NodeIndex(b);
    PlacementIndexed(base, "");
    PlacementIndexed(a, "");
    PlacementIndexed(b, "");
    KidIdsIndexed(base);
    SortedUnionIs(KidIds(base), []);
    var ids := SortedUnion(KidIds(base), []);
    ghost var before := ledger.cells;
    for i := 0 to |ids|
      invariant ledger.cells + MoveCellsFrom(res, base, a, b, ids[i..]) == before + MoveCellsFrom(res, base, a, b, ids)
    {
      var id := ids[i];
      assert id in ids && id in baseNodes;
      MovesStep(res, base, a, b, ids, i, ledger.cells);
      ghost var soFar := ledger.cells;
      if id in aPlaces && id in bPlaces && aPlaces[id] != bPlaces[id] {
        var aMoved, bMoved := aPlaces[id] != basePlaces[id], bPlaces[id] != basePlaces[id];
        var contested := (aMoved && bMoved) || aNodes[id] != bNodes[id];
        if contested {
          RecordMove(
            ledger, res, id, basePlaces[id], aPlaces[id], bPlaces[id], baseNodes[id], aNodes[id], bNodes[id]);
        }
      }
      assert ledger.cells == soFar + MoveCells(res, base, a, b, id);
    }
    assert ids[|ids|..] == [];
    assert ledger.cells == before + MoveCellsFrom(res, base, a, b, ids);
  }

  lemma {:induction false} MovesStep(
    res: Resolution, base: Node, a: Node, b: Node, ids: seq<Id>, i: nat, cells: seq<Conflict>)
    requires i < |ids|
    ensures cells + MoveCellsFrom(res, base, a, b, ids[i..])
         == cells + MoveCells(res, base, a, b, ids[i]) + MoveCellsFrom(res, base, a, b, ids[i + 1..])
  {
    assert ids[i..][1..] == ids[i + 1..];
  }

  // The move cell, and the node cell when the two sides hold different content.
  method RecordMove(
    ledger: Ledger, res: Resolution, id: Id, basePar: Id, aPar: Id, bPar: Id, baseC: Node, aC: Node, bC: Node)
    modifies ledger
    ensures ledger.cells == old(ledger.cells)
      + ([Record(res, id, MoveFacet, ConcurrentMove, Some(Str(basePar)), Some(Str(aPar)), Some(Str(bPar)))]
         + (if aC == bC then []
            else [Record(res, id, NodeFacet, ConcurrentMove, Some(Bytes(baseC)), Some(Bytes(aC)), Some(Bytes(bC)))]))
  {
    ledger.Append([Record(res, id, MoveFacet, ConcurrentMove, Some(Str(basePar)), Some(Str(aPar)), Some(Str(bPar)))]);
    if aC != bC {
      ledger.Append([Record(res, id, NodeFacet, ConcurrentMove, Some(Bytes(baseC)), Some(Bytes(aC)), Some(Bytes(bC)))]);
    }
  }

  // Children of one parent that one side edited and the other removed from the tree.
  method RecordDeletes(
    ledger: Ledger, res: Resolution, c: Context, base: seq<Node>, a: seq<Node>, b: seq<Node>)
    modifies ledger
    ensures ledger.cells == old(ledger.cells) + DeleteCells(res, c, Ids(base), base, a, b)
  {
    var ids := Ids(base);
    ghost var before := ledger.cells;
    for i := 0 to |ids|
      invariant ledger.cells + DeleteCells(res, c, ids[i..], base, a, b)
             == before + DeleteCells(res, c, ids, base, a, b)
    {
      DeletesStep(res, c, ids, i, base, a, b, ledger.cells);
      ledger.Append(DeleteCell(res, c, ids[i], ById(base, ids[i]), ById(a, ids[i]), ById(b, ids[i])));
    }
    assert ids[|ids|..] == [];
    assert ledger.cells == before + DeleteCells(res, c, ids, base, a, b);
  }

  lemma {:induction false} DeletesStep(
    res: Resolution, c: Context, ids: seq<Id>, i: nat, base: seq<Node>, a: seq<Node>, b: seq<Node>,
    cells: seq<Conflict>)
    requires i < |ids| && forall x | x in ids :: x in Ids(base)
    ensures forall x | x in ids[i..] :: x in Ids(base)
    ensures cells + DeleteCells(res, c, ids[i..], base, a, b)
         == cells + DeleteCell(res, c, ids[i], ById(base, ids[i]), ById(a, ids[i]), ById(b, ids[i]))
            + DeleteCells(res, c, ids[i + 1..], base, a, b)
  {
    assert ids[i..][1..] == ids[i + 1..];
  }

  method RunMerge3(
    ledger: Ledger, res: Resolution, c: Context, base: Node, aOpt: Option<Node>, bOpt: Option<Node>)
    returns (merged: Node)
    modifies ledger
    ensures merged == Merge3(res, c, base, aOpt, bOpt).0
    ensures ledger.cells == old(ledger.cells) + Merge3(res, c, base, aOpt, bOpt).1
    decreases Size(base), 2
  {
    var a, b := OrBase(aOpt, base), OrBase(bOpt, base);
    var baseKids, aKids, bKids := KidsOf(base), KidsOf(a), KidsOf(b);
    var order := MergedOrder(res, Ids(baseKids), Ids(aKids), Ids(bKids));
    ledger.Append(OwnCells(res, base, a, b));
    RecordDeletes(ledger, res, c, baseKids, aKids, bKids);
    ledger.Append(OrderCell(res, base.id, Ids(baseKids), Ids(aKids), Ids(bKids)));
    var kids := RunMergeKids(ledger, res, c, order, base, aKids, bKids);
    merged := MergedNode(res, base, a, b, kids);
    InOneList(
      old(ledger.cells), OwnCells(res, base, a, b), DeleteCells(res, c, Ids(baseKids), baseKids, aKids, bKids),
      OrderCell(res, base.id, Ids(baseKids), Ids(aKids), Ids(bKids)), MergeKids(res, c, order, base, aKids, bKids).1);
    Merge3Is(res, c, base, aOpt, bOpt, a, b, order, ledger.cells, old(ledger.cells), merged);
  }

  lemma {:induction false} InOneList(
    before: seq<Conflict>, own: seq<Conflict>, deletes: seq<Conflict>, order: seq<Conflict>, kids: seq<Conflict>)
    ensures before + own + deletes + order + kids == before + (own + deletes + order + kids)
  {
  }

  lemma {:induction false} Merge3Is(
    res: Resolution, c: Context, base: Node, aOpt: Option<Node>, bOpt: Option<Node>, a: Node, b: Node, order: seq<Id>,
    cells: seq<Conflict>, before: seq<Conflict>, merged: Node)
    requires a == OrBase(aOpt, base) && b == OrBase(bOpt, base)
    requires order == MergedOrder(res, Ids(KidsOf(base)), Ids(KidsOf(a)), Ids(KidsOf(b)))
    requires var kids := MergeKids(res, c, order, base, KidsOf(a), KidsOf(b));
      && merged == MergedNode(res, base, a, b, kids.0)
      && cells == before + (
           OwnCells(res, base, a, b)
           + DeleteCells(res, c, Ids(KidsOf(base)), KidsOf(base), KidsOf(a), KidsOf(b))
           + OrderCell(res, base.id, Ids(KidsOf(base)), Ids(KidsOf(a)), Ids(KidsOf(b)))
           + kids.1)
    ensures merged == Merge3(res, c, base, aOpt, bOpt).0
    ensures cells == before + Merge3(res, c, base, aOpt, bOpt).1
  {
  }

  // The merged children, in the merged order.
  method RunMergeKids(
    ledger: Ledger, res: Resolution, c: Context, order: seq<Id>, base: Node, a: seq<Node>, b: seq<Node>)
    returns (kids: seq<Node>)
    modifies ledger
    ensures kids == MergeKids(res, c, order, base, a, b).0
    ensures ledger.cells == old(ledger.cells) + MergeKids(res, c, order, base, a, b).1
    decreases Size(base), 1
  {
    kids := [];
    ghost var before, all := ledger.cells, MergeKids(res, c, order, base, a, b);
    for i := 0 to |order|
      invariant kids + MergeKids(res, c, order[i..], base, a, b).0 == all.0
      invariant ledger.cells + MergeKids(res, c, order[i..], base, a, b).1 == before + all.1
    {
      KidsStep(res, c, order, i, base, a, b, kids, ledger.cells);
      var kid := RunMergeKid(ledger, res, c, order[i], base, a, b);
      kids := kids + kid;
    }
    assert order[|order|..] == [];
    assert MergeKids(res, c, [], base, a, b) == ([], []);
    assert kids == all.0 && ledger.cells == before + all.1;
  }

  lemma {:induction false} KidsStep(
    res: Resolution, c: Context, order: seq<Id>, i: nat, base: Node, a: seq<Node>, b: seq<Node>,
    kids: seq<Node>, cells: seq<Conflict>)
    requires i < |order|
    ensures var head := MergeKid(res, c, order[i], base, a, b);
      var rest := MergeKids(res, c, order[i + 1..], base, a, b);
      && kids + MergeKids(res, c, order[i..], base, a, b).0 == kids + head.0 + rest.0
      && cells + MergeKids(res, c, order[i..], base, a, b).1 == cells + head.1 + rest.1
  {
    assert order[i..][1..] == order[i + 1..];
  }

  // One id of the merged order.
  method RunMergeKid(
    ledger: Ledger, res: Resolution, c: Context, x: Id, base: Node, a: seq<Node>, b: seq<Node>)
    returns (kid: seq<Node>)
    modifies ledger
    ensures kid == MergeKid(res, c, x, base, a, b).0
    ensures ledger.cells == old(ledger.cells) + MergeKid(res, c, x, base, a, b).1
    decreases Size(base), 0
  {
    var inBase, inA, inB := ById(KidsOf(base), x), ById(a, x), ById(b, x);
    if inBase.Some? {
      KidSmaller(base, inBase.value);
      var m := RunMerge3(ledger, res, c, inBase.value, inA, inB);
      return [m];
    }
    if inA.Some? && inB.Some? {
      var ac, bc := inA.value, inB.value;
      if ac == bc {
        return [ac];
      }
      ledger.Append([Record(res, x, InsertFacet, ConcurrentEdit, Some(Str("")), Some(Bytes(ac)), Some(Bytes(bc)))]);
      return [if c.before(ac, bc) then ac else bc];
    }
    kid := if inA.Some? then [inA.value] else if inB.Some? then [inB.value] else [];
  }

  // The move pre-pass, then the recursion, on one ledger.
  method RunAll(res: Resolution, before: (Node, Node) -> bool, base: Node, a: Node, b: Node)
    returns (merged: Node, cells: seq<Conflict>)
    ensures (merged, cells) == MergeAll(res, before, base, a, b)
  {
    var ledger := new Ledger();
    DetectConcurrentMoves(ledger, res, base, a, b);
    merged := RunMerge3(ledger, res, ContextOf(base, a, b, before), base, Some(a), Some(b));
    cells := ledger.cells;
    var moves := DetectMoves(res, base, a, b);
    assert [] + moves == moves;
  }

  method RunMerge3Way(before: (Node, Node) -> bool, base: Node, a: Node, b: Node) returns (r: Outcome)
    ensures r == Merge3Way(before, base, a, b)
  {
    var merged, cells := RunAll(Agnostic, before, base, a, b);
    if |cells| == 0 {
      return Merged(merged, []);
    }
    r := Refused(cells);
  }

  method RunBlocking(cells: seq<Conflict>) returns (blocking: seq<Conflict>)
    ensures blocking == Blocking(cells)
  {
    blocking := [];
    for i := 0 to |cells|
      invariant blocking + Blocking(cells[i..]) == Blocking(cells)
    {
      assert cells[i..][1..] == cells[i + 1..];
      if !cells[i].primacyHeld {
        blocking := blocking + [cells[i]];
      }
    }
    assert cells[|cells|..] == [];
  }

  method RunMerge3WayWithAuthor(
    authorA: Author, authorB: Author, before: (Node, Node) -> bool, base: Node, a: Node, b: Node) returns (r: Outcome)
    ensures r == Merge3WayWithAuthor(authorA, authorB, before, base, a, b)
  {
    var merged, cells := RunAll(ResolveAuthor(authorA, authorB), before, base, a, b);
    var blocking := RunBlocking(cells);
    if |blocking| > 0 {
      return Refused(blocking);
    }
    r := Merged(merged, cells);
  }
}
