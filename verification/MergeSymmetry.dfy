// Swapping the branches, with their authors, transposes the two sides of every
// refused cell and changes nothing else.
module MergeSymmetry {
  import opened Wrappers
  import opened Tree
  import opened Ordinal
  import opened Merge

  function SwapCell(c: Conflict): Conflict {
    c.(a := c.b, b := c.a)
  }

  function SwapCells(s: seq<Conflict>): (r: seq<Conflict>)
    ensures |r| == |s| && forall i | 0 <= i < |s| :: r[i] == SwapCell(s[i])
  {
    seq(|s|, i requires 0 <= i < |s| => SwapCell(s[i]))
  }

  lemma {:induction false} SwapConcat(s: seq<Conflict>, t: seq<Conflict>)
    ensures SwapCells(s + t) == SwapCells(s) + SwapCells(t)
  {
  }

  function SwapResolution(res: Resolution): Resolution {
    res.(aIsPrimary := res.pinHeld && !res.aIsPrimary, aTag := res.bTag, bTag := res.aTag)
  }

  function SwapContext(c: Context): Context {
    c.(a := c.b, b := c.a)
  }

  // Only a held pin names a side.
  predicate Proper(res: Resolution) {
    res.aIsPrimary ==> res.pinHeld
  }

  // The order of canonical bytes is total, and only equal nodes tie.
  ghost predicate CanonicalOrder(before: (Node, Node) -> bool) {
    forall x, y :: (before(x, y) || before(y, x)) && (before(x, y) && before(y, x) ==> x == y)
  }

  lemma {:induction false} ResolveSwapped(a: Author, b: Author)
    ensures ResolveAuthor(b, a) == SwapResolution(ResolveAuthor(a, b))
    ensures Proper(ResolveAuthor(a, b))
  {
  }

  lemma {:induction false} RecordSwapped(
    res: Resolution, id: Id, facet: Facet, cls: Class,
    baseV: Option<Text>, aV: Option<Text>, bV: Option<Text>)
    requires Proper(res)
    ensures Record(SwapResolution(res), id, facet, cls, baseV, bV, aV)
         == SwapCell(Record(res, id, facet, cls, baseV, aV, bV))
  {
  }

  lemma {:induction false} PickSwapped<T>(res: Resolution, base: T, a: T, b: T)
    requires Proper(res)
    ensures var p, q := PickOf(res, base, a, b), PickOf(SwapResolution(res), base, b, a);
            && (p == Pick.Base <==> q == Pick.Base)
            && (a != b ==> (p == SideA <==> q == SideB))
            && Chosen(p, base, a, b) == Chosen(q, base, b, a)
  {
  }

  lemma {:induction false} ProbeCellSwapped(res: Resolution, id: Id, facet: Facet, base: Node, a: Node, b: Node)
    requires Proper(res)
    ensures ProbeCell(SwapResolution(res), id, facet, base, b, a) == SwapCells(ProbeCell(res, id, facet, base, a, b))
  {
    RecordSwapped(res, id, facet, ConcurrentEdit, Some(Bytes(base)), Some(Bytes(a)), Some(Bytes(b)));
  }

  lemma {:induction false} StyleCellSwapped(res: Resolution, base: Node, a: Node, b: Node, m: Member)
    requires Proper(res)
    ensures StyleCell(SwapResolution(res), base, b, a, m) == SwapCells(StyleCell(res, base, a, b, m))
    ensures StylePick(SwapResolution(res), base, b, a, m) == StylePick(res, base, a, b, m)
  {
    var bv, av, cv := StyleField(base, m), StyleField(a, m), StyleField(b, m);
    RecordSwapped(res, base.id, StyleFacet(m), ConcurrentEdit, StrText(bv), StrText(av), StrText(cv));
    PickSwapped(res, bv, av, cv);
  }

  lemma {:induction false} StyleCellsSwapped(res: Resolution, base: Node, a: Node, b: Node, members: seq<Member>)
    requires Proper(res)
    ensures StyleCells(SwapResolution(res), base, b, a, members) == SwapCells(StyleCells(res, base, a, b, members))
  {
    if members != [] {
      StyleCellSwapped(res, base, a, b, members[0]);
      StyleCellsSwapped(res, base, a, b, members[1..]);
      SwapConcat(StyleCell(res, base, a, b, members[0]), StyleCells(res, base, a, b, members[1..]));
    }
  }

  lemma {:induction false} StyleSwapped(res: Resolution, base: Node, a: Node, b: Node)
    requires Proper(res)
    ensures MergedStyle(SwapResolution(res), base, b, a) == MergedStyle(res, base, a, b)
  {
    forall m: Member ensures StylePick(SwapResolution(res), base, b, a, m) == StylePick(res, base, a, b, m) {
      StyleCellSwapped(res, base, a, b, m);
    }
    assert MergedMembers(SwapResolution(res), base, b, a) == MergedMembers(res, base, a, b);
  }

  lemma {:induction false} OwnCellsSwapped(res: Resolution, base: Node, a: Node, b: Node)
    requires Proper(res)
    ensures OwnCells(SwapResolution(res), base, b, a) == SwapCells(OwnCells(res, base, a, b))
  {
    var shell := Childless(base.kind);
    ProbeCellSwapped(res, base.id, KindFacet, KindProbe(base), KindProbe(a), KindProbe(b));
    StyleCellsSwapped(res, base, a, b, StyleOrder);
    ProbeCellSwapped(res, base.id, StateFacet, StateProbe(shell, base), StateProbe(shell, a), StateProbe(shell, b));
    ProbeCellSwapped(res, base.id, AccessFacet, AccessProbe(shell, base), AccessProbe(shell, a), AccessProbe(shell, b));
    ProbeCellSwapped(
      res, base.id, TooltipFacet, TooltipProbe(shell, base), TooltipProbe(shell, a), TooltipProbe(shell, b));
  }

  lemma {:induction false} NodeSwapped(res: Resolution, base: Node, a: Node, b: Node, kids: seq<Node>)
    requires Proper(res)
    ensures MergedNode(SwapResolution(res), base, b, a, kids) == MergedNode(res, base, a, b, kids)
  {
    var shell := Childless(base.kind);
    PickSwapped(res, KindProbe(base), KindProbe(a), KindProbe(b));
    PickSwapped(res, StateProbe(shell, base), StateProbe(shell, a), StateProbe(shell, b));
    PickSwapped(res, AccessProbe(shell, base), AccessProbe(shell, a), AccessProbe(shell, b));
    PickSwapped(res, TooltipProbe(shell, base), TooltipProbe(shell, a), TooltipProbe(shell, b));
    StyleSwapped(res, base, a, b);
    assert MergedKind(SwapResolution(res), base, b, a) == MergedKind(res, base, a, b);
  }

  lemma {:induction false} OrderSwapped(res: Resolution, id: Id, base: seq<Id>, a: seq<Id>, b: seq<Id>)
    requires Proper(res)
    ensures MergedOrder(SwapResolution(res), base, b, a) == MergedOrder(res, base, a, b)
    ensures OrderCell(SwapResolution(res), id, base, b, a) == SwapCells(OrderCell(res, id, base, a, b))
  {
    SortedUnionSymmetric(Except(a, ToSet(base)), Except(b, ToSet(base)));
    assert DisjointAdditions(base, a, b) == DisjointAdditions(base, b, a);
    RecordSwapped(
      res, id, ChildrenFacet, ReorderVsStructural, Some(Str(Join(base))), Some(Str(Join(a))), Some(Str(Join(b))));
  }

  lemma {:induction false} DeleteCellSwapped(
    res: Resolution, c: Context, x: Id, base: Option<Node>, a: Option<Node>, b: Option<Node>)
    requires Proper(res) && base.Some?
    ensures DeleteCell(SwapResolution(res), SwapContext(c), x, base, b, a)
         == SwapCells(DeleteCell(res, c, x, base, a, b))
  {
  }

  lemma {:induction false} DeleteCellsSwapped(
    res: Resolution, c: Context, ids: seq<Id>, base: seq<Node>, a: seq<Node>, b: seq<Node>)
    requires Proper(res) && forall x | x in ids :: x in Ids(base)
    ensures DeleteCells(SwapResolution(res), SwapContext(c), ids, base, b, a)
         == SwapCells(DeleteCells(res, c, ids, base, a, b))
  {
    if ids != [] {
      DeleteCellSwapped(res, c, ids[0], ById(base, ids[0]), ById(a, ids[0]), ById(b, ids[0]));
      DeleteCellsSwapped(res, c, ids[1..], base, a, b);
      SwapConcat(
        DeleteCell(res, c, ids[0], ById(base, ids[0]), ById(a, ids[0]), ById(b, ids[0])),
        DeleteCells(res, c, ids[1..], base, a, b));
    }
  }

  lemma {:induction false} MergeSwapped(
    res: Resolution, c: Context, base: Node, aOpt: Option<Node>, bOpt: Option<Node>)
    requires Proper(res) && CanonicalOrder(c.before)
    ensures var r := Merge3(res, c, base, aOpt, bOpt);
            Merge3(SwapResolution(res), SwapContext(c), base, bOpt, aOpt) == (r.0, SwapCells(r.1))
    decreases Size(base), 1, 0
  {
    var a, b := OrBase(aOpt, base), OrBase(bOpt, base);
    var baseKids, aKids, bKids := KidsOf(base), KidsOf(a), KidsOf(b);
    var order := MergedOrder(res, Ids(baseKids), Ids(aKids), Ids(bKids));
    var kids := MergeKids(res, c, order, base, aKids, bKids);
    OwnCellsSwapped(res, base, a, b);
    DeleteCellsSwapped(res, c, Ids(baseKids), baseKids, aKids, bKids);
    OrderSwapped(res, base.id, Ids(baseKids), Ids(aKids), Ids(bKids));
    KidsSwapped(res, c, order, base, aKids, bKids);
    NodeSwapped(res, base, a, b, kids.0);
    var own := OwnCells(res, base, a, b);
    var gone := DeleteCells(res, c, Ids(baseKids), baseKids, aKids, bKids);
    var list := OrderCell(res, base.id, Ids(baseKids), Ids(aKids), Ids(bKids));
    SwapConcat(own, gone);
    SwapConcat(own + gone, list);
    SwapConcat(own + gone + list, kids.1);
  }

  lemma {:induction false} KidsSwapped(
    res: Resolution, c: Context, order: seq<Id>, base: Node, a: seq<Node>, b: seq<Node>)
    requires Proper(res) && CanonicalOrder(c.before)
    ensures var r := MergeKids(res, c, order, base, a, b);
            MergeKids(SwapResolution(res), SwapContext(c), order, base, b, a) == (r.0, SwapCells(r.1))
    decreases Size(base), 0, |order|
  {
    if order != [] {
      KidSwapped(res, c, order[0], base, a, b);
      KidsSwapped(res, c, order[1..], base, a, b);
      SwapConcat(MergeKid(res, c, order[0], base, a, b).1, MergeKids(res, c, order[1..], base, a, b).1);
    }
  }

  function InsertCells(res: Resolution, x: Id, a: Node, b: Node): seq<Conflict> {
    [Record(res, x, InsertFacet, ConcurrentEdit, Some(Str("")), Some(Bytes(a)), Some(Bytes(b)))]
  }

  lemma {:induction false} InsertSwapped(res: Resolution, c: Context, x: Id, a: Node, b: Node)
    requires Proper(res) && CanonicalOrder(c.before)
    ensures InsertCells(SwapResolution(res), x, b, a) == SwapCells(InsertCells(res, x, a, b))
    ensures a != b ==> (if c.before(a, b) then a else b) == (if c.before(b, a) then b else a)
    ensures SwapCells([]) == []
  {
    RecordSwapped(res, x, InsertFacet, ConcurrentEdit, Some(Str("")), Some(Bytes(a)), Some(Bytes(b)));
    assert c.before(a, b) || c.before(b, a);
    assert c.before(a, b) && c.before(b, a) ==> a == b;
  }

  lemma {:induction false} KidSwapped(
    res: Resolution, c: Context, x: Id, base: Node, a: seq<Node>, b: seq<Node>)
    requires Proper(res) && CanonicalOrder(c.before)
    ensures var r := MergeKid(res, c, x, base, a, b);
            MergeKid(SwapResolution(res), SwapContext(c), x, base, b, a) == (r.0, SwapCells(r.1))
    decreases Size(base), 0, 0
  {
    var inBase, inA, inB := ById(KidsOf(base), x), ById(a, x), ById(b, x);
    if inBase.Some? {
      KidSmaller(base, inBase.value);
      MergeSwapped(res, c, inBase.value, inA, inB);
    } else if inA.Some? && inB.Some? {
      InsertSwapped(res, c, x, inA.value, inB.value);
    } else {
      assert SwapCells([]) == [];
    }
  }

  lemma {:induction false} MoveSwapped(res: Resolution, base: Node, a: Node, b: Node, x: Id)
    requires Proper(res)
    ensures MoveCells(SwapResolution(res), base, b, a, x) == SwapCells(MoveCells(res, base, a, b, x))
  {
  }

  lemma {:induction false} MovesSwapped(res: Resolution, base: Node, a: Node, b: Node, ids: seq<Id>)
    requires Proper(res)
    ensures MoveCellsFrom(SwapResolution(res), base, b, a, ids) == SwapCells(MoveCellsFrom(res, base, a, b, ids))
  {
    if ids != [] {
      MoveSwapped(res, base, a, b, ids[0]);
      MovesSwapped(res, base, a, b, ids[1..]);
      SwapConcat(MoveCells(res, base, a, b, ids[0]), MoveCellsFrom(res, base, a, b, ids[1..]));
    }
  }

  lemma {:induction false} AllSwapped(res: Resolution, before: (Node, Node) -> bool, base: Node, a: Node, b: Node)
    requires Proper(res) && CanonicalOrder(before)
    ensures var r := MergeAll(res, before, base, a, b);
            MergeAll(SwapResolution(res), before, base, b, a) == (r.0, SwapCells(r.1))
  {
    MergeSwapped(res, ContextOf(base, a, b, before), base, Some(a), Some(b));
    MovesSwapped(res, base, a, b, SortedUnion(KidIds(base), []));
    SwapConcat(DetectMoves(res, base, a, b), Merge3(res, ContextOf(base, a, b, before), base, Some(a), Some(b)).1);
  }

  lemma {:induction false} BlockingSwapped(s: seq<Conflict>)
    ensures Blocking(SwapCells(s)) == SwapCells(Blocking(s))
  {
    if s != [] {
      BlockingSwapped(s[1..]);
      assert SwapCells(s)[1..] == SwapCells(s[1..]);
    }
  }

  function SwapOutcome(o: Outcome): Outcome {
    match o
    case Merged(tree, resolved) => Merged(tree, SwapCells(resolved))
    case Refused(conflicts) => Refused(SwapCells(conflicts))
  }

  // Both entry points: the verdict and the tree do not depend on the argument order,
  // and each refused cell is the same cell with its sides exchanged.
  lemma {:induction false} AuthoredSwap(
    authorA: Author, authorB: Author, before: (Node, Node) -> bool, base: Node, a: Node, b: Node)
    requires CanonicalOrder(before)
    ensures Merge3WayWithAuthor(authorB, authorA, before, base, b, a)
         == SwapOutcome(Merge3WayWithAuthor(authorA, authorB, before, base, a, b))
  {
    var res := ResolveAuthor(authorA, authorB);
    ResolveSwapped(authorA, authorB);
    AllSwapped(res, before, base, a, b);
    BlockingSwapped(MergeAll(res, before, base, a, b).1);
  }

  lemma {:induction false} Swap(before: (Node, Node) -> bool, base: Node, a: Node, b: Node)
    requires CanonicalOrder(before)
    ensures Merge3Way(before, base, b, a) == SwapOutcome(Merge3Way(before, base, a, b))
  {
    ResolveSwapped(Secondary(None), Secondary(None));
    AllSwapped(Agnostic, before, base, a, b);
  }

  // The sorted envelopes agree cell by cell as well.
  lemma {:induction false} SortSwapped(s: seq<Conflict>)
    ensures SortCanonical(SwapCells(s)) == SwapCells(SortCanonical(s))
  {
    if s != [] {
      SortSwapped(s[1..]);
      assert SwapCells(s)[1..] == SwapCells(s[1..]);
      InsertCellSwapped(s[0], SortCanonical(s[1..]));
    }
  }

  lemma {:induction false} InsertCellSwapped(c: Conflict, s: seq<Conflict>)
    ensures InsertCell(SwapCell(c), SwapCells(s)) == SwapCells(InsertCell(c, s))
  {
    if s != [] {
      assert SwapCells(s)[1..] == SwapCells(s[1..]);
      InsertCellSwapped(c, s[1..]);
    }
  }
}
