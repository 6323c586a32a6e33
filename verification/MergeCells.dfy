// Which facets a merge of agreeing trees contests, and what a pin does with the cells.
module MergeCells {
  import opened Wrappers
  import opened Tree
  import opened Ordinal
  import opened Merge
  import opened ApplySafety
  import opened MergeLaws
  import opened MergeUnique
  import opened MergeContent
  import T = MergeTold
  import O = MergeOrder

  ghost predicate HasCell(cells: seq<Conflict>, p: Id, f: Facet) {
    exists cell :: cell in cells && cell.nodeId == p && cell.facet == f
  }

  // Both branches changed what the facet's cell compares, and differently. For all facets but
  // the style members that is the value together with the members the merge does not control.
  predicate Contested(f: Facet, base: Node, a: Node, b: Node) {
    match f
    case KindFacet => Clash(KindSeen(base), KindSeen(a), KindSeen(b))
    case StateFacet => Clash(StateSeen(base), StateSeen(a), StateSeen(b))
    case AccessFacet => Clash(AccessSeen(base), AccessSeen(a), AccessSeen(b))
    case TooltipFacet => Clash(TooltipSeen(base), TooltipSeen(a), TooltipSeen(b))
    case StyleFacet(m) => Clash(StyleField(base, m), StyleField(a, m), StyleField(b, m))
    case _ => false
  }

  // The node stands in all three versions, and its facet is contested.
  ghost predicate HeldContested(base: Node, a: Node, b: Node, p: Id, f: Facet) {
    && Holds(base, p) && Holds(a, p) && Holds(b, p)
    && Contested(f, Sub(base, p), Sub(a, p), Sub(b, p))
  }

  // -- The contested facets of one node --------------------------------------

  // Three texts that make a cell of a contested facet.
  function TextOf(f: Facet, shell: Kind, n: Node): Option<Text> {
    match f
    case KindFacet => Some(Bytes(KindProbe(n)))
    case StateFacet => Some(Bytes(StateProbe(shell, n)))
    case AccessFacet => Some(Bytes(AccessProbe(shell, n)))
    case TooltipFacet => Some(Bytes(TooltipProbe(shell, n)))
    case StyleFacet(m) => StrText(StyleField(n, m))
    case _ => None
  }

  function CellOf(authorA: Author, authorB: Author, t: T.Trio, f: Facet): Conflict {
    var shell := Childless(t.base.kind);
    Record(
      ResolveAuthor(authorA, authorB), t.base.id, f, ConcurrentEdit, TextOf(f, shell, t.base), TextOf(f, shell, t.a),
      TextOf(f, shell, t.b))
  }

  lemma {:induction false} SeenDiffer(t: T.Trio, f: Facet)
    requires OwnFacet(f) && !f.StyleFacet? && t.base.id == t.a.id == t.b.id
    ensures var shell := Childless(t.base.kind);
      Contested(f, t.base, t.a, t.b) <==>
        T.Differ(TextOf(f, shell, t.base), TextOf(f, shell, t.a), TextOf(f, shell, t.b))
  {
  }

  lemma {:induction false} ProbesDiffer(
    authorA: Author, authorB: Author, whole: T.Whole, t: T.Trio, f: Facet, cell: Conflict)
    requires OwnFacet(f) && !f.StyleFacet? && cell.facet == f
    ensures var shell := Childless(t.base.kind);
      T.ToldHere(authorA, authorB, whole, t, cell) <==>
        && cell == CellOf(authorA, authorB, t, f)
        && T.Differ(TextOf(f, shell, t.base), TextOf(f, shell, t.a), TextOf(f, shell, t.b))
  {
    var shell := Childless(t.base.kind);
    T.ProbesAre(t, t.base);
    T.ProbesAre(t, t.a);
    T.ProbesAre(t, t.b);
    T.RecordSays(
      authorA, authorB, cell, t.base.id, f, ConcurrentEdit, TextOf(f, shell, t.base), TextOf(f, shell, t.a),
      TextOf(f, shell, t.b));
  }

  lemma {:induction false} MembersDiffer(
    authorA: Author, authorB: Author, whole: T.Whole, t: T.Trio, m: Member, cell: Conflict)
    requires cell.facet == StyleFacet(m)
    ensures T.ToldHere(authorA, authorB, whole, t, cell) <==>
      cell == CellOf(authorA, authorB, t, StyleFacet(m)) && Contested(StyleFacet(m), t.base, t.a, t.b)
  {
    T.FieldIsQuoted(t.base, m);
    T.FieldIsQuoted(t.a, m);
    T.FieldIsQuoted(t.b, m);
    T.RecordSays(
      authorA, authorB, cell, t.base.id, StyleFacet(m), ConcurrentEdit, StrText(StyleField(t.base, m)),
      StrText(StyleField(t.a, m)), StrText(StyleField(t.b, m)));
  }

  // A facet is told of at a node exactly when it is contested there.
  lemma {:induction false} ContestedTold(
    authorA: Author, authorB: Author, whole: T.Whole, t: T.Trio, f: Facet, cell: Conflict)
    requires OwnFacet(f) && t.base.id == t.a.id == t.b.id && cell.facet == f
    ensures T.ToldHere(authorA, authorB, whole, t, cell) <==>
      cell == CellOf(authorA, authorB, t, f) && Contested(f, t.base, t.a, t.b)
  {
    if f.StyleFacet? {
      MembersDiffer(authorA, authorB, whole, t, f.member, cell);
    } else {
      ProbesDiffer(authorA, authorB, whole, t, f, cell);
      SeenDiffer(t, f);
    }
  }

  ghost predicate Agreeing(t: T.Trio, owners: Owners) {
    && t.base.id == t.a.id == t.b.id && UniqueIds(t.base) && UniqueIds(t.a) && UniqueIds(t.b)
    && Fit(t.base, owners) && Fit(t.a, owners) && Fit(t.b, owners)
  }

  // A contested facet of a node all three hold is told of.
  lemma {:induction false} HeldTold(authorA: Author, authorB: Author, t: T.Trio, owners: Owners, p: Id, f: Facet)
    returns (cell: Conflict)
    requires Agreeing(t, owners) && OwnFacet(f) && HeldContested(t.base, t.a, t.b, p, f)
    ensures cell.nodeId == p && cell.facet == f && T.CellTold(authorA, authorB, t.base, t.a, t.b, cell)
  {
    var to := T.Trio(Sub(t.base, p), Sub(t.a, p), Sub(t.b, p));
    SubFit(t.base, p, owners);
    SubFit(t.a, p, owners);
    SubFit(t.b, p, owners);
    cell := CellOf(authorA, authorB, to, f);
    ContestedTold(authorA, authorB, T.Whole(t.a, t.b), to, f, cell);
    T.HeldReached(t, owners, p);
    assert T.Told(authorA, authorB, T.Whole(t.a, t.b), t, cell);
  }

  lemma {:induction false} ToldHeld(authorA: Author, authorB: Author, t: T.Trio, owners: Owners, cell: Conflict)
    requires Agreeing(t, owners) && OwnFacet(cell.facet) && T.CellTold(authorA, authorB, t.base, t.a, t.b, cell)
    ensures HeldContested(t.base, t.a, t.b, cell.nodeId, cell.facet)
  {
    var to :| T.Reached(t, to) && T.ToldHere(authorA, authorB, T.Whole(t.a, t.b), to, cell);
    var q := T.ReachedHeld(t, owners, to);
    SubFit(t.base, q, owners);
    SubFit(t.a, q, owners);
    SubFit(t.b, q, owners);
    ContestedTold(authorA, authorB, T.Whole(t.a, t.b), to, cell.facet, cell);
  }

  // On unique trees that agree on where ids live, under any authorship and whatever else is in
  // conflict: a facet cell is recorded exactly for the contested facets of the nodes all three
  // versions hold.
  lemma {:induction false} CellsExactly(
    authorA: Author, authorB: Author, before: (Node, Node) -> bool, base: Node, a: Node, b: Node, owners: Owners,
    p: Id, f: Facet)
    requires base.id == a.id == b.id && Agree(base, a, b, owners) && OwnFacet(f)
    ensures HasCell(MergeAll(ResolveAuthor(authorA, authorB), before, base, a, b).1, p, f) <==>
      HeldContested(base, a, b, p, f)
  {
    Settled(base, {}, owners);
    Settled(a, {}, owners);
    Settled(b, {}, owners);
    var t := T.Trio(base, a, b);
    if HeldContested(base, a, b, p, f) {
      var cell := HeldTold(authorA, authorB, t, owners, p, f);
      T.CellsAre(authorA, authorB, before, base, a, b, cell);
    }
    var cells := MergeAll(ResolveAuthor(authorA, authorB), before, base, a, b).1;
    forall cell | cell in cells && cell.nodeId == p && cell.facet == f ensures HeldContested(base, a, b, p, f) {
      RecordedHeld(authorA, authorB, before, t, owners, cell);
    }
  }

  lemma {:induction false} RecordedHeld(
    authorA: Author, authorB: Author, before: (Node, Node) -> bool, t: T.Trio, owners: Owners, cell: Conflict)
    requires Agreeing(t, owners) && OwnFacet(cell.facet)
    requires cell in MergeAll(ResolveAuthor(authorA, authorB), before, t.base, t.a, t.b).1
    ensures HeldContested(t.base, t.a, t.b, cell.nodeId, cell.facet)
  {
    T.CellsAre(authorA, authorB, before, t.base, t.a, t.b, cell);
    ToldHeld(authorA, authorB, t, owners, cell);
  }

  // -- A pin holds every cell ------------------------------------------------

  ghost predicate AllHeld(res: Resolution, cells: seq<Conflict>) {
    forall cell | cell in cells :: cell.primacyHeld == res.pinHeld
  }

  lemma {:induction false} HeldConcat(res: Resolution, s: seq<Conflict>, t: seq<Conflict>)
    requires AllHeld(res, s) && AllHeld(res, t)
    ensures AllHeld(res, s + t)
  {
  }

  lemma {:induction false} StyleHeld(res: Resolution, base: Node, a: Node, b: Node, members: seq<Member>)
    ensures AllHeld(res, StyleCells(res, base, a, b, members))
  {
    if members != [] {
      StyleHeld(res, base, a, b, members[1..]);
      HeldConcat(res, StyleCell(res, base, a, b, members[0]), StyleCells(res, base, a, b, members[1..]));
    }
  }

  lemma {:induction false} OwnHeld(res: Resolution, base: Node, a: Node, b: Node)
    ensures AllHeld(res, OwnCells(res, base, a, b))
  {
    StyleHeld(res, base, a, b, StyleOrder);
  }

  lemma {:induction false} DeletesHeld(
    res: Resolution, c: Context, ids: seq<Id>, base: seq<Node>, a: seq<Node>, b: seq<Node>)
    requires forall x | x in ids :: x in Ids(base)
    ensures AllHeld(res, DeleteCells(res, c, ids, base, a, b))
  {
    if ids != [] {
      DeletesHeld(res, c, ids[1..], base, a, b);
    }
  }

  lemma {:induction false} MovesHeld(res: Resolution, base: Node, a: Node, b: Node, ids: seq<Id>)
    ensures AllHeld(res, MoveCellsFrom(res, base, a, b, ids))
  {
    if ids != [] {
      MovesHeld(res, base, a, b, ids[1..]);
      HeldConcat(res, MoveCells(res, base, a, b, ids[0]), MoveCellsFrom(res, base, a, b, ids[1..]));
    }
  }

  lemma {:induction false} RunHeld(res: Resolution, c: Context, base: Node, aOpt: Option<Node>, bOpt: Option<Node>)
    ensures AllHeld(res, Merge3(res, c, base, aOpt, bOpt).1)
    decreases Size(base), 1, 0
  {
    var a, b := OrBase(aOpt, base), OrBase(bOpt, base);
    var baseIds, aIds, bIds := Ids(KidsOf(base)), Ids(KidsOf(a)), Ids(KidsOf(b));
    var order := MergedOrder(res, baseIds, aIds, bIds);
    var own, gone := OwnCells(res, base, a, b), DeleteCells(res, c, baseIds, KidsOf(base), KidsOf(a), KidsOf(b));
    var list := OrderCell(res, base.id, baseIds, aIds, bIds);
    OwnHeld(res, base, a, b);
    DeletesHeld(res, c, baseIds, KidsOf(base), KidsOf(a), KidsOf(b));
    KidsHeld(res, c, order, base, KidsOf(a), KidsOf(b));
    HeldConcat(res, own, gone);
    HeldConcat(res, own + gone, list);
    HeldConcat(res, own + gone + list, MergeKids(res, c, order, base, KidsOf(a), KidsOf(b)).1);
  }

  lemma {:induction false} KidsHeld(
    res: Resolution, c: Context, order: seq<Id>, base: Node, a: seq<Node>, b: seq<Node>)
    ensures AllHeld(res, MergeKids(res, c, order, base, a, b).1)
    decreases Size(base), 0, |order|
  {
    if order != [] {
      var bc := ById(KidsOf(base), order[0]);
      if bc.Some? {
        KidSmaller(base, bc.value);
        RunHeld(res, c, bc.value, ById(a, order[0]), ById(b, order[0]));
      }
      KidsHeld(res, c, order[1..], base, a, b);
      HeldConcat(res, MergeKid(res, c, order[0], base, a, b).1, MergeKids(res, c, order[1..], base, a, b).1);
    }
  }

  lemma {:induction false} NothingBlocks(cells: seq<Conflict>)
    requires forall cell | cell in cells :: cell.primacyHeld
    ensures Blocking(cells) == []
  {
    if cells != [] {
      NothingBlocks(cells[1..]);
    }
  }

  // With exactly one primary author a merge never refuses: it returns every cell as resolved.
  lemma {:induction false} OnePrimaryNeverRefuses(
    authorA: Author, authorB: Author, before: (Node, Node) -> bool, base: Node, a: Node, b: Node)
    requires authorA.Primary? != authorB.Primary?
    ensures var m := MergeAll(ResolveAuthor(authorA, authorB), before, base, a, b);
      Merge3WayWithAuthor(authorA, authorB, before, base, a, b) == Merged(m.0, m.1)
  {
    MergeHeld(ResolveAuthor(authorA, authorB), before, base, a, b);
    NothingBlocks(MergeAll(ResolveAuthor(authorA, authorB), before, base, a, b).1);
  }

  lemma {:induction false} AllBlock(cells: seq<Conflict>)
    requires forall cell | cell in cells :: !cell.primacyHeld
    ensures Blocking(cells) == cells
  {
    if cells != [] {
      AllBlock(cells[1..]);
      assert cells == [cells[0]] + cells[1..];
    }
  }

  lemma {:induction false} MergeHeld(res: Resolution, before: (Node, Node) -> bool, base: Node, a: Node, b: Node)
    ensures AllHeld(res, MergeAll(res, before, base, a, b).1)
  {
    RunHeld(res, ContextOf(base, a, b, before), base, Some(a), Some(b));
    MovesHeld(res, base, a, b, SortedUnion(KidIds(base), []));
    HeldConcat(
      res, DetectMoves(res, base, a, b), Merge3(res, ContextOf(base, a, b, before), base, Some(a), Some(b)).1);
  }

  ghost predicate Lists(
    authorA: Author, authorB: Author, base: Node, a: Node, b: Node, cells: seq<Conflict>)
  {
    forall cell :: cell in cells <==> T.CellTold(authorA, authorB, base, a, b, cell)
  }

  // On unique trees the authored merge refuses exactly when there is a cell to tell of and not
  // exactly one author is primary; refused or not, it lists exactly those cells.
  lemma {:induction false} AuthoredVerdict(
    authorA: Author, authorB: Author, before: (Node, Node) -> bool, base: Node, a: Node, b: Node)
    requires base.id == a.id == b.id && UniqueIds(base) && UniqueIds(a) && UniqueIds(b)
    ensures match Merge3WayWithAuthor(authorA, authorB, before, base, a, b)
      case Merged(_, resolved) =>
        && Lists(authorA, authorB, base, a, b, resolved)
        && (resolved == [] || authorA.Primary? != authorB.Primary?)
      case Refused(conflicts) =>
        Lists(authorA, authorB, base, a, b, conflicts) && conflicts != [] && authorA.Primary? == authorB.Primary?
  {
    var res := ResolveAuthor(authorA, authorB);
    var cells := MergeAll(res, before, base, a, b).1;
    MergeHeld(res, before, base, a, b);
    forall cell ensures cell in cells <==> T.CellTold(authorA, authorB, base, a, b, cell) {
      T.CellsAre(authorA, authorB, before, base, a, b, cell);
    }
    if authorA.Primary? == authorB.Primary? {
      AllBlock(cells);
    } else {
      NothingBlocks(cells);
    }
  }

  // The agnostic merge is clean exactly when there is no cell to tell of.
  lemma {:induction false} AgnosticVerdict(before: (Node, Node) -> bool, base: Node, a: Node, b: Node)
    requires base.id == a.id == b.id && UniqueIds(base) && UniqueIds(a) && UniqueIds(b)
    ensures match Merge3Way(before, base, a, b)
      case Merged(_, resolved) => resolved == [] && Lists(Secondary(None), Secondary(None), base, a, b, [])
      case Refused(conflicts) =>
        conflicts != [] && Lists(Secondary(None), Secondary(None), base, a, b, conflicts)
  {
    var cells := MergeAll(Agnostic, before, base, a, b).1;
    forall cell ensures cell in cells <==> T.CellTold(Secondary(None), Secondary(None), base, a, b, cell) {
      T.CellsAre(Secondary(None), Secondary(None), before, base, a, b, cell);
    }
  }

  lemma {:induction false} ListTold(whole: T.Whole, t: T.Trio) returns (cell: Conflict)
    requires O.ListContested(Ids(KidsOf(t.base)), Ids(KidsOf(t.a)), Ids(KidsOf(t.b)))
    ensures T.ToldHere(Secondary(None), Secondary(None), whole, t, cell)
  {
    var base, a, b := Ids(KidsOf(t.base)), Ids(KidsOf(t.a)), Ids(KidsOf(t.b));
    var was, inA, inB := Some(Str(T.Commas(base))), Some(Str(T.Commas(a))), Some(Str(T.Commas(b)));
    cell := Record(Agnostic, t.base.id, ChildrenFacet, ReorderVsStructural, was, inA, inB);
    T.RecordSays(
      Secondary(None), Secondary(None), cell, t.base.id, ChildrenFacet, ReorderVsStructural, was, inA, inB);
  }

  // A contested list of a node all three hold is told of.
  lemma {:induction false} HeldListTold(t: T.Trio, owners: Owners, p: Id) returns (cell: Conflict)
    requires Agreeing(t, owners) && Holds(t.base, p) && Holds(t.a, p) && Holds(t.b, p)
    requires O.ListContested(Ids(KidsOf(Sub(t.base, p))), Ids(KidsOf(Sub(t.a, p))), Ids(KidsOf(Sub(t.b, p))))
    ensures T.CellTold(Secondary(None), Secondary(None), t.base, t.a, t.b, cell)
  {
    cell := ListTold(T.Whole(t.a, t.b), T.Trio(Sub(t.base, p), Sub(t.a, p), Sub(t.b, p)));
    T.HeldReached(t, owners, p);
    assert T.Told(Secondary(None), Secondary(None), T.Whole(t.a, t.b), t, cell);
  }

  // In a clean merge no list was contested, and each is settled by the rule.
  lemma {:induction false} CleanLists(
    before: (Node, Node) -> bool, base: Node, a: Node, b: Node, owners: Owners, p: Id)
    requires base.id == a.id == b.id && Agree(base, a, b, owners)
    requires Holds(base, p) && Holds(a, p) && Holds(b, p) && Merge3Way(before, base, a, b).Merged?
    ensures !O.ListContested(Ids(KidsOf(Sub(base, p))), Ids(KidsOf(Sub(a, p))), Ids(KidsOf(Sub(b, p))))
    ensures O.ListSettlesAt(
      Secondary(None), Secondary(None), before, base, a, b, Merge3Way(before, base, a, b).tree, p)
  {
    Settled(base, {}, owners);
    Settled(a, {}, owners);
    Settled(b, {}, owners);
    AgnosticVerdict(before, base, a, b);
    if O.ListContested(Ids(KidsOf(Sub(base, p))), Ids(KidsOf(Sub(a, p))), Ids(KidsOf(Sub(b, p)))) {
      var _ := HeldListTold(T.Trio(base, a, b), owners, p);
    }
    O.ListsSettle(Secondary(None), Secondary(None), before, base, a, b, owners, p);
  }

  // -- A contest nobody asked for --------------------------------------------

  // One branch edits a member outside the merge's control, the other the tooltip: the tooltip
  // is contested although one side changed it. Without a primary the merge refuses; with one
  // on the first branch the second's edit is reported resolved and the old tooltip stays.
  lemma {:induction false} ExtrasContestTooltip(
    before: (Node, Node) -> bool, n: Node, extras: Fields, tooltip: Option<string>, tag: Option<string>)
    requires extras != n.extras && tooltip != n.tooltip
    ensures var a, b := n.(extras := extras), n.(tooltip := tooltip);
      var refused, pinned := Merge3Way(before, n, a, b), Merge3WayWithAuthor(Primary, Secondary(tag), before, n, a, b);
      && refused.Refused? && HasCell(refused.conflicts, n.id, TooltipFacet)
      && pinned.Merged? && HasCell(pinned.resolved, n.id, TooltipFacet) && pinned.tree.tooltip == n.tooltip
  {
    var a, b := n.(extras := extras), n.(tooltip := tooltip);
    TooltipCell(Secondary(None), Secondary(None), before, n, a, b);
    TooltipCell(Primary, Secondary(tag), before, n, a, b);
    OnePrimaryNeverRefuses(Primary, Secondary(tag), before, n, a, b);
  }

  lemma {:induction false} TooltipCell(
    authorA: Author, authorB: Author, before: (Node, Node) -> bool, n: Node, a: Node, b: Node)
    requires n.id == a.id == b.id && Contested(TooltipFacet, n, a, b)
    ensures var res := ResolveAuthor(authorA, authorB);
      var m := MergeAll(res, before, n, a, b);
      HasCell(m.1, n.id, TooltipFacet) && m.0.tooltip == Chosen(Pinned(res), n.tooltip, a.tooltip, b.tooltip)
  {
    var res, t := ResolveAuthor(authorA, authorB), T.Trio(n, a, b);
    var cell := CellOf(authorA, authorB, t, TooltipFacet);
    ContestedTold(authorA, authorB, T.Whole(a, b), t, TooltipFacet, cell);
    T.OwnSays(authorA, authorB, T.Whole(a, b), t, cell);
    T.InFour(res, ContextOf(n, a, b, before), t, cell);
    assert cell in MergeAll(res, before, n, a, b).1;
    TooltipSettles(Rule(res, false), n, a, b);
  }
}
