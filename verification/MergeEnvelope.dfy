// A refusal names each cell once, so sorting it gives one canonical envelope.
module MergeEnvelope {
  import opened Wrappers
  import opened Tree
  import opened Ordinal
  import opened Merge
  import opened MergeLaws
  import opened MergeUnique
  import opened MergeContent

  ghost predicate DistinctCells(s: seq<Conflict>) {
    forall i, j | 0 <= i < j < |s| :: s[i].nodeId != s[j].nodeId || s[i].facet != s[j].facet
  }

  ghost predicate Different(s: seq<Conflict>, t: seq<Conflict>) {
    forall c, d | c in s && d in t :: c.nodeId != d.nodeId || c.facet != d.facet
  }

  lemma {:induction false} JoinDistinct(s: seq<Conflict>, t: seq<Conflict>)
    requires DistinctCells(s) && DistinctCells(t) && Different(s, t)
    ensures DistinctCells(s + t)
  {
    forall i, j | 0 <= i < j < |s + t|
      ensures (s + t)[i].nodeId != (s + t)[j].nodeId || (s + t)[i].facet != (s + t)[j].facet
    {
      if i < |s| <= j {
        assert s[i] in s && t[j - |s|] in t;
      }
    }
  }

  // Which cells one run of the recursion may record.
  ghost predicate Recorded(c: Context, base: Node, a: Node, cell: Conflict) {
    match cell.facet
    case MoveFacet => false
    case NodeFacet => Holds(base, cell.nodeId) && cell.nodeId != base.id && (cell.nodeId !in c.a || cell.nodeId !in c.b)
    case InsertFacet => Holds(a, cell.nodeId) && cell.nodeId != a.id && a != base
    case _ => Holds(base, cell.nodeId)
  }

  lemma {:induction false} StyleCellsDistinct(res: Resolution, base: Node, a: Node, b: Node, members: seq<Member>)
    requires forall i, j | 0 <= i < j < |members| :: members[i] != members[j]
    ensures DistinctCells(StyleCells(res, base, a, b, members))
    ensures forall cell | cell in StyleCells(res, base, a, b, members) ::
      cell.nodeId == base.id && cell.facet.StyleFacet? && cell.facet.member in members
  {
    if members != [] {
      StyleCellsDistinct(res, base, a, b, members[1..]);
      JoinDistinct(StyleCell(res, base, a, b, members[0]), StyleCells(res, base, a, b, members[1..]));
    }
  }

  lemma {:induction false} ProbeCellAt(res: Resolution, x: Id, facet: Facet, base: Node, a: Node, b: Node)
    ensures DistinctCells(ProbeCell(res, x, facet, base, a, b))
    ensures forall cell | cell in ProbeCell(res, x, facet, base, a, b) :: cell.nodeId == x && cell.facet == facet
  {
  }

  lemma {:induction false} OwnCellsDistinct(res: Resolution, base: Node, a: Node, b: Node)
    ensures DistinctCells(OwnCells(res, base, a, b))
    ensures forall cell | cell in OwnCells(res, base, a, b) :: cell.nodeId == base.id && OwnFacet(cell.facet)
  {
    var shell := Childless(base.kind);
    var k := ProbeCell(res, base.id, KindFacet, KindProbe(base), KindProbe(a), KindProbe(b));
    var s := StyleCells(res, base, a, b, StyleOrder);
    var t := ProbeCell(res, base.id, StateFacet, StateProbe(shell, base), StateProbe(shell, a), StateProbe(shell, b));
    var u := ProbeCell(
      res, base.id, AccessFacet, AccessProbe(shell, base), AccessProbe(shell, a), AccessProbe(shell, b));
    var v := ProbeCell(
      res, base.id, TooltipFacet, TooltipProbe(shell, base), TooltipProbe(shell, a), TooltipProbe(shell, b));
    ProbeCellAt(res, base.id, KindFacet, KindProbe(base), KindProbe(a), KindProbe(b));
    StyleCellsDistinct(res, base, a, b, StyleOrder);
    ProbeCellAt(res, base.id, StateFacet, StateProbe(shell, base), StateProbe(shell, a), StateProbe(shell, b));
    ProbeCellAt(res, base.id, AccessFacet, AccessProbe(shell, base), AccessProbe(shell, a), AccessProbe(shell, b));
    ProbeCellAt(res, base.id, TooltipFacet, TooltipProbe(shell, base), TooltipProbe(shell, a), TooltipProbe(shell, b));
    JoinDistinct(k, s);
    JoinDistinct(k + s, t);
    JoinDistinct(k + s + t, u);
    JoinDistinct(k + s + t + u, v);
  }

  lemma {:induction false} DeleteCellsDistinct(
    res: Resolution, c: Context, ids: seq<Id>, base: seq<Node>, a: seq<Node>, b: seq<Node>)
    requires NoRepeat(ids) && forall x | x in ids :: x in Ids(base)
    ensures DistinctCells(DeleteCells(res, c, ids, base, a, b))
    ensures forall cell | cell in DeleteCells(res, c, ids, base, a, b) ::
      cell.nodeId in ids && cell.facet == NodeFacet && (cell.nodeId !in c.a || cell.nodeId !in c.b)
  {
    if ids != [] {
      DeleteCellsDistinct(res, c, ids[1..], base, a, b);
      assert ids[0] !in ids[1..];
      JoinDistinct(
        DeleteCell(res, c, ids[0], ById(base, ids[0]), ById(a, ids[0]), ById(b, ids[0])),
        DeleteCells(res, c, ids[1..], base, a, b));
    }
  }

  // Where the cells recorded for one child id may point.
  ghost predicate RecordedKid(c: Context, base: Node, a: seq<Node>, x: Id, cell: Conflict) {
    var bc, ac := ById(KidsOf(base), x), ById(a, x);
    if bc.Some? then Recorded(c, bc.value, OrBase(ac, bc.value), cell)
    else cell.facet == InsertFacet && cell.nodeId == x && ac.Some?
  }

  lemma {:induction false} MergeDistinct(
    res: Resolution, c: Context, base: Node, aOpt: Option<Node>, bOpt: Option<Node>)
    requires UniqueIds(base) && (aOpt.Some? ==> UniqueIds(aOpt.value) && aOpt.value.id == base.id)
    requires bOpt.Some? ==> UniqueIds(bOpt.value)
    ensures DistinctCells(Merge3(res, c, base, aOpt, bOpt).1)
    ensures forall cell | cell in Merge3(res, c, base, aOpt, bOpt).1 ::
      Recorded(c, base, OrBase(aOpt, base), cell)
    decreases Size(base), 1, 0
  {
    var a, b := OrBase(aOpt, base), OrBase(bOpt, base);
    var order := MergedOrder(res, Ids(KidsOf(base)), Ids(KidsOf(a)), Ids(KidsOf(b)));
    var own := OwnCells(res, base, a, b);
    KidsNoRepeat(base);
    KidsNoRepeat(a);
    KidsNoRepeat(b);
    UniqueKids(b);
    var gone := DeleteCells(res, c, Ids(KidsOf(base)), KidsOf(base), KidsOf(a), KidsOf(b));
    var list := OrderCell(res, base.id, Ids(KidsOf(base)), Ids(KidsOf(a)), Ids(KidsOf(b)));
    var kids := MergeKids(res, c, order, base, KidsOf(a), KidsOf(b)).1;
    OwnCellsDistinct(res, base, a, b);
    DeleteCellsDistinct(res, c, Ids(KidsOf(base)), KidsOf(base), KidsOf(a), KidsOf(b));
    OrderNoRepeat(res, Ids(KidsOf(base)), Ids(KidsOf(a)), Ids(KidsOf(b)));
    KidsDistinct(res, c, order, base, aOpt, KidsOf(b));
    forall cell | cell in kids ensures Below(base, a, cell) && Recorded(c, base, a, cell) {
      var x :| x in order && RecordedKid(c, base, KidsOf(a), x, cell);
      KidRecorded(c, base, a, x, cell);
    }
    forall cell | cell in gone ensures Recorded(c, base, a, cell) {
      KidHeld(base, cell.nodeId);
    }
    HoldsSplit(base, base.id);
    FourDistinct(base, a, own, gone, list, kids);
    assert Merge3(res, c, base, aOpt, bOpt).1 == own + gone + list + kids;
  }

  lemma {:induction false} FourDistinct(
    base: Node, a: Node, own: seq<Conflict>, gone: seq<Conflict>, list: seq<Conflict>, kids: seq<Conflict>)
    requires DistinctCells(own) && forall cell | cell in own :: cell.nodeId == base.id && OwnFacet(cell.facet)
    requires DistinctCells(gone)
    requires forall cell | cell in gone :: cell.facet == NodeFacet && cell.nodeId in Ids(KidsOf(base))
    requires |list| <= 1 && forall cell | cell in list :: cell.nodeId == base.id && cell.facet == ChildrenFacet
    requires DistinctCells(kids) && forall cell | cell in kids :: Below(base, a, cell)
    ensures DistinctCells(own + gone + list + kids)
  {
    JoinDistinct(own, gone);
    JoinDistinct(own + gone, list);
    JoinDistinct(own + gone + list, kids);
  }

  // Strictly inside: not a cell the node itself records.
  ghost predicate Below(base: Node, a: Node, cell: Conflict) {
    && cell.nodeId != base.id
    && (cell.facet == NodeFacet ==> cell.nodeId !in Ids(KidsOf(base)))
  }

  lemma {:induction false} KidsNoRepeat(n: Node)
    requires UniqueIds(n)
    ensures NoRepeat(Ids(KidsOf(n)))
  {
    UniqueKids(n);
    forall i, j | 0 <= i < j < |KidsOf(n)| ensures Ids(KidsOf(n))[i] != Ids(KidsOf(n))[j] {
      assert KidsOf(n)[i].id != KidsOf(n)[j].id;
    }
  }

  lemma {:induction false} KidHeld(n: Node, x: Id)
    requires UniqueIds(n) && x in Ids(KidsOf(n))
    ensures Holds(n, x) && x != n.id
  {
    var i :| 0 <= i < |KidsOf(n)| && Ids(KidsOf(n))[i] == x;
    var c := KidsOf(n)[i];
    assert c in KidsOf(n);
    HoldsSplit(c, x);
    HoldsSplit(n, x);
    RootOnce(n, c);
  }

  // An id is held by one child of a unique tree.
  lemma {:induction false} OneHolder(n: Node, c: Node, d: Node, x: Id)
    requires UniqueIds(n) && c in KidsOf(n) && d in KidsOf(n) && Holds(c, x) && Holds(d, x)
    ensures c == d
  {
    var i := KidAt(n, c);
    var j := KidAt(n, d);
    HeldOccurs(c, x);
    HeldOccurs(d, x);
    assert Occ(x, n) <= 1;
    if i < j {
      OccTwo(x, Slots(n), i, j);
    } else if j < i {
      OccTwo(x, Slots(n), j, i);
    }
  }

  lemma {:induction false} KidRecorded(c: Context, base: Node, a: Node, x: Id, cell: Conflict)
    requires UniqueIds(base) && UniqueIds(a) && a.id == base.id
    requires RecordedKid(c, base, KidsOf(a), x, cell)
    ensures Recorded(c, base, a, cell) && Below(base, a, cell)
  {
    var bc, ac := ById(KidsOf(base), x), ById(KidsOf(a), x);
    if ac.Some? {
      HoldsSplit(ac.value, x);
      HoldsSplit(a, cell.nodeId);
      RootOnce(a, ac.value);
    }
    if bc.Some? {
      HoldsSplit(base, cell.nodeId);
      RootOnce(base, bc.value);
      if cell.facet == NodeFacet && cell.nodeId in Ids(KidsOf(base)) {
        var i :| 0 <= i < |KidsOf(base)| && Ids(KidsOf(base))[i] == cell.nodeId;
        var d := KidsOf(base)[i];
        HoldsSplit(d, d.id);
        OneHolder(base, bc.value, d, cell.nodeId);
      }
    }
  }

  // Two child ids record different cells.
  lemma {:induction false} KidsApart(c: Context, base: Node, a: Node, x: Id, y: Id, cell: Conflict, dell: Conflict)
    requires UniqueIds(base) && UniqueIds(a) && x != y
    requires RecordedKid(c, base, KidsOf(a), x, cell) && RecordedKid(c, base, KidsOf(a), y, dell)
    ensures cell.nodeId != dell.nodeId || cell.facet != dell.facet
  {
    if cell.nodeId == dell.nodeId && cell.facet == dell.facet {
      if cell.facet == InsertFacet {
        var ac, ad := ById(KidsOf(a), x).value, ById(KidsOf(a), y).value;
        HoldsSplit(ac, x);
        HoldsSplit(ad, y);
        OneHolder(a, ac, ad, cell.nodeId);
      } else {
        OneHolder(base, ById(KidsOf(base), x).value, ById(KidsOf(base), y).value, cell.nodeId);
      }
    }
  }

  lemma {:induction false} KidsDistinct(
    res: Resolution, c: Context, order: seq<Id>, base: Node, aOpt: Option<Node>, b: seq<Node>)
    requires UniqueIds(base) && (aOpt.Some? ==> UniqueIds(aOpt.value) && aOpt.value.id == base.id)
    requires NoRepeat(order) && forall d | d in b :: UniqueIds(d)
    ensures var a := KidsOf(OrBase(aOpt, base));
            var cells := MergeKids(res, c, order, base, a, b).1;
            && DistinctCells(cells)
            && forall cell | cell in cells :: exists x | x in order :: RecordedKid(c, base, a, x, cell)
    decreases Size(base), 0, |order|
  {
    if order != [] {
      var a := KidsOf(OrBase(aOpt, base));
      var head, rest := MergeKid(res, c, order[0], base, a, b).1, MergeKids(res, c, order[1..], base, a, b).1;
      KidDistinct(res, c, order[0], base, aOpt, b);
      KidsDistinct(res, c, order[1..], base, aOpt, b);
      assert order[0] !in order[1..];
      forall cell, dell | cell in head && dell in rest
        ensures cell.nodeId != dell.nodeId || cell.facet != dell.facet
      {
        var y :| y in order[1..] && RecordedKid(c, base, a, y, dell);
        KidsApart(c, base, OrBase(aOpt, base), order[0], y, cell, dell);
      }
      JoinDistinct(head, rest);
      forall cell | cell in head + rest ensures exists x | x in order :: RecordedKid(c, base, a, x, cell) {
        if cell in rest {
          var y :| y in order[1..] && RecordedKid(c, base, a, y, cell);
          assert y in order;
        } else {
          assert order[0] in order;
        }
      }
    }
  }

  lemma {:induction false} KidDistinct(
    res: Resolution, c: Context, x: Id, base: Node, aOpt: Option<Node>, b: seq<Node>)
    requires UniqueIds(base) && (aOpt.Some? ==> UniqueIds(aOpt.value) && aOpt.value.id == base.id)
    requires forall d | d in b :: UniqueIds(d)
    ensures var a := KidsOf(OrBase(aOpt, base));
            var cells := MergeKid(res, c, x, base, a, b).1;
            && DistinctCells(cells)
            && forall cell | cell in cells :: RecordedKid(c, base, a, x, cell)
    decreases Size(base), 0, 0
  {
    var a := KidsOf(OrBase(aOpt, base));
    var bc, ac, bb := ById(KidsOf(base), x), ById(a, x), ById(b, x);
    UniqueKids(base);
    UniqueKids(OrBase(aOpt, base));
    if bc.Some? {
      KidSmaller(base, bc.value);
      MergeDistinct(res, c, bc.value, ac, bb);
    }
  }

  // -- With the move pre-pass ------------------------------------------------

  lemma {:induction false} MoveCellsAt(res: Resolution, base: Node, a: Node, b: Node, x: Id)
    ensures DistinctCells(MoveCells(res, base, a, b, x))
    ensures forall cell | cell in MoveCells(res, base, a, b, x) ::
      cell.nodeId == x && (cell.facet == MoveFacet || cell.facet == NodeFacet) && x in NodeIndex(a) && x in NodeIndex(b)
  {
  }

  lemma {:induction false} MovesDistinct(res: Resolution, base: Node, a: Node, b: Node, ids: seq<Id>)
    requires NoRepeat(ids)
    ensures DistinctCells(MoveCellsFrom(res, base, a, b, ids))
    ensures forall cell | cell in MoveCellsFrom(res, base, a, b, ids) ::
      && cell.nodeId in ids && (cell.facet == MoveFacet || cell.facet == NodeFacet)
      && cell.nodeId in NodeIndex(a) && cell.nodeId in NodeIndex(b)
  {
    if ids != [] {
      MoveCellsAt(res, base, a, b, ids[0]);
      MovesDistinct(res, base, a, b, ids[1..]);
      assert ids[0] !in ids[1..];
      JoinDistinct(MoveCells(res, base, a, b, ids[0]), MoveCellsFrom(res, base, a, b, ids[1..]));
    }
  }

  // Every cell of a merge of unique trees is recorded once.
  lemma {:induction false} CellsOnce(res: Resolution, before: (Node, Node) -> bool, base: Node, a: Node, b: Node)
    requires UniqueIds(base) && UniqueIds(a) && UniqueIds(b) && a.id == base.id
    ensures DistinctCells(MergeAll(res, before, base, a, b).1)
  {
    var c := ContextOf(base, a, b, before);
    var ids := SortedUnion(KidIds(base), []);
    SortedUnionIs(KidIds(base), []);
    SortedNoRepeat(ids);
    MovesDistinct(res, base, a, b, ids);
    MergeDistinct(res, c, base, Some(a), Some(b));
    PlacementIndexed(a, "");
    PlacementIndexed(b, "");
    JoinDistinct(DetectMoves(res, base, a, b), Merge3(res, c, base, Some(a), Some(b)).1);
  }

  // -- The sorted envelope ---------------------------------------------------

  // A number for each facet name, and back.
  lemma {:induction false} FacetNamesDiffer(f: Facet, g: Facet)
    ensures FacetName(f) == FacetName(g) ==> f == g
  {
    var s, t := FacetName(f), FacetName(g);
    if |s| == |t| {
      if s == t {
        assert s[0] == t[0];
        assert |s| > 6 ==> s[6] == t[6];
        assert |s| > 4 ==> s[4] == t[4];
      }
    }
  }

  lemma {:induction false} CellOrder(c: Conflict, d: Conflict)
    ensures CellLess(c, d) || CellLess(d, c) || (c.nodeId == d.nodeId && c.facet == d.facet)
    ensures !(CellLess(c, d) && CellLess(d, c))
  {
    Trichotomy(c.nodeId, d.nodeId);
    Trichotomy(FacetName(c.facet), FacetName(d.facet));
    FacetNamesDiffer(c.facet, d.facet);
  }

  lemma {:induction false} CellTransitive(c: Conflict, d: Conflict, e: Conflict)
    requires CellLess(c, d) && CellLess(d, e)
    ensures CellLess(c, e)
  {
    if Less(c.nodeId, d.nodeId) && Less(d.nodeId, e.nodeId) {
      Transitive(c.nodeId, d.nodeId, e.nodeId);
    } else if c.nodeId == d.nodeId == e.nodeId {
      Transitive(FacetName(c.facet), FacetName(d.facet), FacetName(e.facet));
    }
  }

  ghost predicate InOrder(s: seq<Conflict>) {
    forall i, j | 0 <= i < j < |s| :: CellLess(s[i], s[j])
  }

  lemma {:induction false} InsertAdds(c: Conflict, s: seq<Conflict>)
    ensures multiset(InsertCell(c, s)) == multiset(s) + multiset{c}
  {
    if s != [] {
      assert s == [s[0]] + s[1..];
      if CellLess(s[0], c) {
        InsertAdds(c, s[1..]);
      }
    }
  }

  lemma {:induction false} InsertMember(c: Conflict, s: seq<Conflict>, d: Conflict)
    requires d in InsertCell(c, s)
    ensures d == c || d in s
  {
    InsertAdds(c, s);
    assert d in multiset(s) + multiset{c};
  }

  lemma {:induction false} InsertInOrder(c: Conflict, s: seq<Conflict>)
    requires InOrder(s) && Different([c], s)
    ensures InOrder(InsertCell(c, s))
  {
    if s != [] {
      assert s == [s[0]] + s[1..];
      CellOrder(s[0], c);
      assert c in [c] && s[0] in s;
      if CellLess(s[0], c) {
        assert Different([c], s[1..]);
        InsertInOrder(c, s[1..]);
        LessThanAll(s[0], c, s[1..]);
      } else {
        forall j | 0 <= j < |s| ensures CellLess(c, s[j]) {
          if j > 0 { CellTransitive(c, s[0], s[j]); }
        }
      }
    }
  }

  lemma {:induction false} LessThanAll(head: Conflict, c: Conflict, s: seq<Conflict>)
    requires CellLess(head, c) && forall k | 0 <= k < |s| :: CellLess(head, s[k])
    ensures forall j | 0 <= j < |InsertCell(c, s)| :: CellLess(head, InsertCell(c, s)[j])
  {
    forall j | 0 <= j < |InsertCell(c, s)| ensures CellLess(head, InsertCell(c, s)[j]) {
      InsertMember(c, s, InsertCell(c, s)[j]);
    }
  }

  lemma {:induction false} HeadDiffers(s: seq<Conflict>, rest: seq<Conflict>)
    requires DistinctCells(s) && s != [] && multiset(rest) == multiset(s[1..])
    ensures Different([s[0]], rest)
  {
    forall c, d | c in [s[0]] && d in rest ensures c.nodeId != d.nodeId || c.facet != d.facet {
      assert d in multiset(s[1..]);
      var k :| 0 <= k < |s[1..]| && s[1..][k] == d;
      assert s[k + 1] == d;
    }
  }

  lemma {:induction false} SortInOrder(s: seq<Conflict>)
    requires DistinctCells(s)
    ensures InOrder(SortCanonical(s)) && multiset(SortCanonical(s)) == multiset(s)
  {
    if s != [] {
      SortInOrder(s[1..]);
      assert s == [s[0]] + s[1..];
      HeadDiffers(s, SortCanonical(s[1..]));
      InsertInOrder(s[0], SortCanonical(s[1..]));
      InsertAdds(s[0], SortCanonical(s[1..]));
    }
  }

  lemma {:induction false} InOrderUnique(s: seq<Conflict>, t: seq<Conflict>)
    requires InOrder(s) && InOrder(t) && multiset(s) == multiset(t)
    ensures s == t
  {
    if s == [] {
      assert |multiset(t)| == 0;
    } else {
      assert |multiset(t)| == |multiset(s)| > 0;
      SameLeast(s, t);
      assert s == [s[0]] + s[1..] && t == [t[0]] + t[1..];
      assert multiset(s[1..]) == multiset(s) - multiset{s[0]};
      assert multiset(t[1..]) == multiset(t) - multiset{t[0]};
      InOrderUnique(s[1..], t[1..]);
    }
  }

  lemma {:induction false} SameLeast(s: seq<Conflict>, t: seq<Conflict>)
    requires InOrder(s) && InOrder(t) && multiset(s) == multiset(t) && s != [] && t != []
    ensures s[0] == t[0]
  {
    assert s[0] in multiset(t) && t[0] in multiset(s);
    var k :| 0 <= k < |t| && t[k] == s[0];
    var l :| 0 <= l < |s| && s[l] == t[0];
    CellOrder(s[0], t[0]);
  }

  // The facets in the order of an envelope.
  function Rank(f: Facet): nat {
    match f
    case AccessFacet => 0
    case ChildrenFacet => 1
    case InsertFacet => 2
    case KindFacet => 3
    case MoveFacet => 4
    case NodeFacet => 5
    case StateFacet => 6
    case StyleFacet(Direction) => 7
    case StyleFacet(Emphasis) => 8
    case StyleFacet(Role) => 9
    case StyleFacet(Tone) => 10
    case StyleFacet(Voice) => 11
    case StyleFacet(Weight) => 12
    case TooltipFacet => 13
  }

  // Where two names first differ decides.
  lemma {:induction false} LessAt(s: string, t: string, k: nat)
    requires k < |s| && k < |t| && s[..k] == t[..k] && s[k] < t[k]
    ensures Less(s, t)
  {
    assert FirstDifference(s, t, k);
    LessIs(s, t);
  }

  lemma {:induction false} StyleNames(m: Member)
    ensures var s := FacetName(StyleFacet(m)); |s| > 6 && s[..6] == "style."
    ensures FacetName(StyleFacet(m))[6] ==
      match m
      case Direction => 'd' case Emphasis => 'e' case Role => 'r' case Tone => 't' case Voice => 'v' case Weight => 'w'
  {
  }

  function Initial(f: Facet): char
    requires !f.StyleFacet?
  {
    match f
    case AccessFacet => 'a'
    case ChildrenFacet => 'c'
    case InsertFacet => 'i'
    case KindFacet => 'k'
    case MoveFacet => 'm'
    case NodeFacet => 'n'
    case StateFacet => 's'
    case TooltipFacet => 't'
  }

  lemma {:induction false} PlainNames(f: Facet)
    requires !f.StyleFacet?
    ensures var s := FacetName(f);
      |s| > 2 && s[0] == Initial(f) && (f.StateFacet? ==> s[..2] == "st" && s[2] == 'a')
  {
  }

  lemma {:induction false} LaterFacet(f: Facet, g: Facet)
    requires Rank(f) < Rank(g)
    ensures Less(FacetName(f), FacetName(g))
  {
    var s, t := FacetName(f), FacetName(g);
    if f.StyleFacet? { StyleNames(f.member); } else { PlainNames(f); }
    if g.StyleFacet? { StyleNames(g.member); } else { PlainNames(g); }
    if f.StyleFacet? && g.StyleFacet? {
      LessAt(s, t, 6);
    } else if f.StateFacet? && g.StyleFacet? {
      assert t[..2] == t[..6][..2] == "st" && t[2] == t[..6][2] == 'y';
      LessAt(s, t, 2);
    } else {
      assert s[0] == if f.StyleFacet? then s[..6][0] else s[0];
      assert t[0] == if g.StyleFacet? then t[..6][0] else t[0];
      LessAt(s, t, 0);
    }
  }

  lemma {:induction false} FacetOrder(f: Facet, g: Facet)
    ensures Less(FacetName(f), FacetName(g)) <==> Rank(f) < Rank(g)
  {
    if Rank(f) < Rank(g) {
      LaterFacet(f, g);
    } else if Rank(g) < Rank(f) {
      LaterFacet(g, f);
      Trichotomy(FacetName(f), FacetName(g));
    } else {
      assert f == g;
      Trichotomy(FacetName(f), FacetName(g));
    }
  }

  // The sorted envelope holds the very cells, by node id and then by facet.
  lemma {:induction false} EnvelopeSorted(s: seq<Conflict>, i: nat, j: nat)
    requires DistinctCells(s) && i < j < |SortCanonical(s)|
    ensures multiset(SortCanonical(s)) == multiset(s)
    ensures var c, d := SortCanonical(s)[i], SortCanonical(s)[j];
      Ascends(c.nodeId, d.nodeId) || (c.nodeId == d.nodeId && Rank(c.facet) < Rank(d.facet))
  {
    SortInOrder(s);
    var c, d := SortCanonical(s)[i], SortCanonical(s)[j];
    assert CellLess(c, d);
    LessIs(c.nodeId, d.nodeId);
    FacetOrder(c.facet, d.facet);
  }

  // The envelope depends on which cells were refused, not on the order they were met.
  lemma {:induction false} EnvelopeCanonical(s: seq<Conflict>, t: seq<Conflict>)
    requires DistinctCells(s) && DistinctCells(t) && multiset(s) == multiset(t)
    ensures SortCanonical(s) == SortCanonical(t)
  {
    SortInOrder(s);
    SortInOrder(t);
    InOrderUnique(SortCanonical(s), SortCanonical(t));
  }
}
