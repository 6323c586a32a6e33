// Where the documentation promises more than the code gives: concrete trees, and the
// exact condition where one closes the gap.
module DocumentedGaps {
  import opened Wrappers
  import opened Tree
  import opened Ops
  import opened ApplySafety
  import opened Diff
  import D = DiffRoundTrip
  import M = Merge
  import L = MergeLaws
  import U = MergeUnique
  import C = MergeContent
  import Ordinal
  import P = Placements
  import PV = PlacementVerdict

  function Leaf(id: Id): Node {
    Node(id, Kind("Text", map[], [], NoStray), None, NoState, None, None, map[])
  }

  function Box(id: Id, kids: seq<Node>): Node {
    Node(id, Kind("Box", map[], kids, NoStray), None, NoState, None, None, map[])
  }

  lemma {:induction false} LeafIs(id: Id)
    ensures forall x :: Occ(x, Leaf(id)) == if x == id then 1 else 0
    ensures Size(Leaf(id)) == 1 && Depth(Leaf(id)) == 1 && D.Canonical(Leaf(id)) && Slots(Leaf(id)) == []
    ensures AllIds(Leaf(id)) == [id]
  {
    assert Slots(Leaf(id)) == [];
  }

  lemma {:induction false} BoxIs(id: Id, kids: seq<Node>)
    ensures Slots(Box(id, kids)) == kids && IsLayout(Box(id, kids))
    ensures forall x :: Occ(x, Box(id, kids)) == (if x == id then 1 else 0) + OccSeq(x, kids)
    ensures Size(Box(id, kids)) == 1 + SizeSeq(kids) && Depth(Box(id, kids)) == 1 + DepthSeq(kids)
    ensures (forall k | k in kids :: D.Canonical(k)) ==> D.Canonical(Box(id, kids))
  {
    assert Slots(Box(id, kids)) == kids;
  }

  lemma {:induction false} OneKid(x: Id, a: Node)
    ensures OccSeq(x, [a]) == Occ(x, a) && SizeSeq([a]) == Size(a) && DepthSeq([a]) == Depth(a)
  {
    assert [a][1..] == [];
  }

  lemma {:induction false} TwoKids(x: Id, a: Node, b: Node)
    ensures OccSeq(x, [a, b]) == Occ(x, a) + Occ(x, b) && SizeSeq([a, b]) == Size(a) + Size(b)
    ensures DepthSeq([a, b]) == if Depth(a) > Depth(b) then Depth(a) else Depth(b)
  {
    assert [a, b][1..] == [b];
    OneKid(x, b);
  }

  // -- The dry run -----------------------------------------------------------

  // The dry run accepts a replacement root that repeats an id; the engine refuses it.
  lemma {:induction false} DryRunDiffers()
    ensures var op, tree := ReplaceRoot(Box("r", [Leaf("x"), Leaf("x")])), Leaf("r");
      WellFormed(tree) && CanApply(op, tree) && Apply(op, tree).Err?
  {
    var bad := Box("r", [Leaf("x"), Leaf("x")]);
    var op := ReplaceRoot(bad);
    LeafIs("r");
    LeafIs("x");
    BoxIs("r", [Leaf("x"), Leaf("x")]);
    TwoKids("x", Leaf("x"), Leaf("x"));
    assert Occ("x", bad) == 2;
    assert ApplyOne(op, Leaf("r")) == Ok(bad);
    if WellFormed(Leaf("r")) && Apply(op, Leaf("r")).Ok? {
      ApplyKeepsWellFormed(op, Leaf("r"));
    }
  }

  // -- A permit the engine takes back ----------------------------------------

  // The placement helper emits an op for a child that repeats an id of its own, and the
  // engine refuses it.
  lemma {:induction false} PlaceOpFalsePermit()
    ensures var root, child := Box("r", []), Box("c", [Leaf("x"), Leaf("x")]);
      var made := P.PlaceOp(root, child, P.Target("r", P.Last));
      WellFormed(root) && made.Ok? && Apply(made.value, root).Err?
  {
    var root, child := Box("r", []), Box("c", [Leaf("x"), Leaf("x")]);
    Empty("r");
    LeafIs("x");
    BoxIs("c", [Leaf("x"), Leaf("x")]);
    TwoKids("x", Leaf("x"), Leaf("x"));
    assert Occ("x", child) == 2;
    forall y | y in AllIds(child) ensures y !in AllIds(root) {
      OccIds(y, child);
      OccIds(y, root);
      TwoKids(y, Leaf("x"), Leaf("x"));
    }
    assert FirstPath("r", root) == Some([]);
    PV.PlaceOpVerdict(root, child, P.Target("r", P.Last));
  }

  // -- The diff --------------------------------------------------------------

  function Before(): Node {
    Box("r", [Leaf("p"), Box("q", [Leaf("x")])])
  }

  function After(): Node {
    Box("r", [Box("p", [Leaf("x")]), Box("q", [])])
  }

  // A box over one leaf, and what is in it.
  lemma {:induction false} BoxOfLeaf(id: Id, x: Id)
    ensures forall y :: Occ(y, Box(id, [Leaf(x)])) == (if y == id then 1 else 0) + (if y == x then 1 else 0)
    ensures Size(Box(id, [Leaf(x)])) == 2 && Depth(Box(id, [Leaf(x)])) == 2 && D.Canonical(Box(id, [Leaf(x)]))
  {
    LeafIs(x);
    BoxIs(id, [Leaf(x)]);
    OneKid(id, Leaf(x));
    forall y ensures Occ(y, Box(id, [Leaf(x)])) == (if y == id then 1 else 0) + (if y == x then 1 else 0) {
      OneKid(y, Leaf(x));
    }
  }

  lemma {:induction false} Empty(id: Id)
    ensures forall y :: Occ(y, Box(id, [])) == if y == id then 1 else 0
    ensures Size(Box(id, [])) == 1 && Depth(Box(id, [])) == 1 && D.Canonical(Box(id, []))
  {
    BoxIs(id, []);
  }

  lemma {:induction false} PairIs(a: Node, b: Node)
    requires D.Canonical(a) && D.Canonical(b) && Size(a) <= 2 && Size(b) <= 2 && Depth(a) <= 2 && Depth(b) <= 2
    requires forall y :: (if y == "r" then 1 else 0) + Occ(y, a) + Occ(y, b) <= 1
    ensures UniqueIds(Box("r", [a, b])) && D.Canonical(Box("r", [a, b])) && WithinLimits(Box("r", [a, b]))
  {
    BoxIs("r", [a, b]);
    TwoKids("r", a, b);
    forall y ensures Occ(y, Box("r", [a, b])) <= 1 {
      TwoKids(y, a, b);
    }
  }

  lemma {:induction false} OneSeat(i: nat)
    ensures D.Prefixed(i, [[]]) == [[i]]
  {
    assert D.Prefixed(i, [[]])[0] == [i];
  }

  lemma {:induction false} Seated(a: Node, b: Node)
    requires a == Before() && b == After()
    ensures D.Seats(a, b, true) == [[0], [1]]
  {
    var p, q, p', q' := Leaf("p"), Box("q", [Leaf("x")]), Box("p", [Leaf("x")]), Box("q", []);
    assert Ids(a.kind.kids) == ["p", "q"] == Ids(b.kind.kids);
    assert a.kind.kids[0] == p && b.kind.kids[0] == p' && p.kind.tag != p'.kind.tag;
    assert D.Seats(p, p', false) == [[]];
    assert |Ids(q.kind.kids)| != |Ids(q'.kind.kids)| && q.kind.kids != q'.kind.kids;
    assert D.Seats(q, q', false) == [[]];
    assert D.KidSeats(a, b, 2) == [];
    OneSeat(0);
    OneSeat(1);
    assert D.KidSeats(a, b, 1) == D.Prefixed(1, [[]]) + [];
    assert D.KidSeats(a, b, 0) == D.Prefixed(0, [[]]) + [[1]];
    assert StripKids(WithFacetsOf(a, b)) == StripKids(b) && a.kind.kids != b.kind.kids;
  }

  lemma {:induction false} WellMade()
    ensures UniqueIds(Before()) && D.Canonical(Before()) && WithinLimits(Before())
    ensures UniqueIds(After()) && D.Canonical(After()) && WithinLimits(After())
  {
    LeafIs("p");
    BoxOfLeaf("q", "x");
    PairIs(Leaf("p"), Box("q", [Leaf("x")]));
    BoxOfLeaf("p", "x");
    Empty("q");
    PairIs(Box("p", [Leaf("x")]), Box("q", []));
  }

  lemma {:induction false} LeavesLate(ps: seq<Path>)
    requires ps == [[0], [1]] && D.AllMatch(Before(), After(), ps)
    ensures D.Early(Before(), After(), ps)
  {
    BoxOfLeaf("p", "x");
    BoxOfLeaf("q", "x");
    assert NodeAt(After(), ps[0]) == Box("p", [Leaf("x")]) && NodeAt(Before(), ps[1]) == Box("q", [Leaf("x")]);
    assert Occ("x", NodeAt(After(), ps[0])) == 1 && Occ("x", NodeAt(Before(), ps[1])) == 1;
    assert D.Meets(NodeAt(After(), ps[0]), NodeAt(Before(), ps[1]));
  }

  // An id that leaves a later seat for an earlier one: the script inserts it while its old
  // holder is still there, and the batch is refused.
  lemma {:induction false} MigrationIsRefused()
    ensures var a, b := Before(), After();
      && UniqueIds(a) && UniqueIds(b) && D.Canonical(a) && D.Canonical(b) && WithinLimits(a) && WithinLimits(b)
      && ApplyScript(DiffBatched(a, b), a).Err?
  {
    var a, b := Before(), After();
    WellMade();
    Seated(a, b);
    LeavesLate(D.Seats(a, b, true));
    D.RoundTrip(a, b);
  }

  // -- The merge -------------------------------------------------------------

  lemma {:induction false} PlainStyles(res: M.Resolution, base: Node, a: Node, b: Node)
    requires base.style == None && a.style == None && b.style == None
    ensures M.StyleCells(res, base, a, b, M.StyleOrder) == [] && M.MergedStyle(res, base, a, b) == None
  {
    forall m: Member
      ensures M.StyleCell(res, base, a, b, m) == [] && !M.Stored(m, M.StylePick(res, base, a, b, m))
    {
      assert M.StyleField(base, m) == M.StyleField(a, m) == M.StyleField(b, m);
    }
    L.NoStyleCells(res, base, a, b, M.StyleOrder);
    assert M.MergedMembers(res, base, a, b) == map[];
  }

  // The container, its child added on one side, its kind changed on the other.
  lemma {:induction false} InnerMerge(c: M.Context)
    ensures M.Merge3(M.Agnostic, c, Box("p", []), Some(Box("p", [Leaf("x")])), Some(Leaf("p"))) == (Leaf("p"), [])
  {
    var res := M.Agnostic;
    var base, a, b := Box("p", []), Box("p", [Leaf("x")]), Leaf("p");
    PlainStyles(res, base, a, b);
    assert M.KindProbe(base) == M.KindProbe(a);
    assert Ids(M.KidsOf(base)) == [] && Ids(M.KidsOf(a)) == ["x"] && Ids(M.KidsOf(b)) == [];
    var order := M.MergedOrder(res, [], ["x"], []);
    assert order == ["x"];
    L.MergeKidsStep(res, c, "x", [], base, M.KidsOf(a), M.KidsOf(b));
    assert ["x"] + [] == ["x"];
    assert M.MergeKids(res, c, [], base, M.KidsOf(a), M.KidsOf(b)) == ([], []);
    L.ByIdDistinct(M.KidsOf(a), 0);
    assert M.MergeKid(res, c, "x", base, M.KidsOf(a), M.KidsOf(b)) == ([Leaf("x")], []);
    assert M.OwnCells(res, base, a, b) == [];
    assert M.DeleteCells(res, c, [], M.KidsOf(base), M.KidsOf(a), M.KidsOf(b)) == [];
    assert M.OrderCell(res, "p", [], ["x"], []) == [];
    assert M.MergedNode(res, base, a, b, [Leaf("x")]) == Leaf("p");
  }

  lemma {:induction false} PlacedAlone(n: Node)
    requires M.KidsOf(n) == []
    ensures forall parent :: M.PlacementOf(n, parent) == map[n.id := parent]
    ensures M.NodeIndex(n).Keys == {n.id}
  {
    M.KidsSmaller(n);
  }

  lemma {:induction false} PlacedOver(id: Id, k: Node)
    requires M.KidsOf(k) == [] && k.id != id
    ensures M.PlacementOf(Box(id, [k]), "") == map[id := "", k.id := id]
  {
    M.KidsSmaller(Box(id, [k]));
    PlacedAlone(k);
    assert [k][1..] == [];
    assert M.PlacementSeq([k], id) == M.PlacementOf(k, id) + map[];
  }

  lemma {:induction false} NothingMoved()
    ensures M.DetectMoves(M.Agnostic, Box("p", []), Box("p", [Leaf("x")]), Leaf("p")) == []
  {
    var base, a, b := Box("p", []), Box("p", [Leaf("x")]), Leaf("p");
    PlacedAlone(base);
    PlacedAlone(b);
    PlacedAlone(Leaf("x"));
    PlacedOver("p", Leaf("x"));
    L.NoMoves(M.Agnostic, base, a, b, Ordinal.SortedUnion(M.KidIds(base), []));
  }

  lemma {:induction false} TidyBox(id: Id, kids: seq<Node>, owners: Owners)
    requires Owned(kids, {}, owners, Kid(id)) && forall k | k in kids :: Tidy(k, {}, owners)
    ensures Tidy(Box(id, kids), {}, owners)
  {
    TidyFrom(Box(id, kids), {}, owners);
  }

  lemma {:induction false} PlainLeaf(id: Id)
    ensures L.StoredStyles(Leaf(id))
  {
    LeafIs(id);
    assert forall p | ValidPath(Leaf(id), p) :: p == [];
  }

  lemma {:induction false} PlainBox(id: Id, kids: seq<Node>)
    requires forall k | k in kids :: L.StoredStyles(k)
    ensures L.StoredStyles(Box(id, kids))
  {
    BoxIs(id, kids);
    forall p | ValidPath(Box(id, kids), p) ensures L.StoredStyle(NodeAt(Box(id, kids), p)) {
      if p != [] {
        assert kids[p[0]] in kids;
      }
    }
  }

  // One side adds a child to an empty container, the other turns the container into a kind
  // without children: the merge reports clean, and by the law of clean merges the child is lost.
  lemma {:induction false} MergeDropsAddedChild(before: (Node, Node) -> bool)
    ensures var base, a, b := Box("p", []), Box("p", [Leaf("x")]), Leaf("p");
      var o := M.Merge3Way(before, base, a, b);
      && o.Merged? && C.Lost(C.Rule(M.Agnostic, true), base, a, b, "x")
      && C.Holds(a, "x") && !C.Holds(base, "x") && !C.Holds(o.tree, "x")
  {
    var base, a, b := Box("p", []), Box("p", [Leaf("x")]), Leaf("p");
    var owners: Owners := map["p" := Root, "x" := Kid("p")];
    InnerMerge(M.ContextOf(base, a, b, before));
    NothingMoved();
    assert M.MergeAll(M.Agnostic, before, base, a, b).1 == [] + [];
    Agreed(owners);
    PlainLeaf("p");
    PlainLeaf("x");
    PlainBox("p", []);
    PlainBox("p", [Leaf("x")]);
    C.CleanMergeLaw(before, base, a, b, owners);
    LostChild(owners);
  }

  lemma {:induction false} Agreed(owners: Owners)
    requires owners == map["p" := Root, "x" := Kid("p")]
    ensures U.Agree(Box("p", []), Box("p", [Leaf("x")]), Leaf("p"), owners)
  {
    TidyLeaf("p", owners);
    TidyLeaf("x", owners);
    TidyBox("p", [], owners);
    TidyBox("p", [Leaf("x")], owners);
    assert TidyTree(Box("p", []), {}, owners);
    assert TidyTree(Box("p", [Leaf("x")]), {}, owners);
    assert TidyTree(Leaf("p"), {}, owners);
  }

  lemma {:induction false} TidyLeaf(id: Id, owners: Owners)
    ensures Tidy(Leaf(id), {}, owners)
  {
    LeafIs(id);
  }

  lemma {:induction false} LostChild(owners: Owners)
    requires owners == map["p" := Root, "x" := Kid("p")]
    ensures var base, a, b := Box("p", []), Box("p", [Leaf("x")]), Leaf("p");
      && C.Lost(C.Rule(M.Agnostic, true), base, a, b, "x") && C.Holds(a, "x")
  {
    var base, a, b := Box("p", []), Box("p", [Leaf("x")]), Leaf("p");
    Agreed(owners);
    Settled(base, {}, owners);
    Settled(a, {}, owners);
    Settled(b, {}, owners);
    C.HoldsSplit(Leaf("x"), "x");
    C.HoldsSplit(a, "x");
    assert M.KidsOf(a)[0] == Leaf("x");
    C.LostRoot(C.Rule(M.Agnostic, true), base, a, b, owners, "x");
  }

  // -- An id in two places ---------------------------------------------------

  lemma {:induction false} InnerKid(c: M.Context)
    ensures M.Merge3(M.Agnostic, c, Box("s", []), Some(Box("s", [Leaf("x")])), Some(Box("s", [])))
         == (Box("s", [Leaf("x")]), [])
  {
    var base, a := Box("s", []), Box("s", [Leaf("x")]);
    BoxOfLeaf("s", "x");
    PlainLeaf("x");
    PlainBox("s", [Leaf("x")]);
    L.Followed(M.Agnostic, c, base, a, base);
    L.RebasedSame(base, a);
    assert L.KeepsExtras(base, a);
  }

  lemma {:induction false} TwoPlaces(c: M.Context)
    ensures M.Merge3(
        M.Agnostic, c, Box("r", [Box("s", [])]), Some(Box("r", [Box("s", [Leaf("x")])])),
        Some(Box("r", [Box("s", []), Leaf("x")])))
      == (Box("r", [Box("s", [Leaf("x")]), Leaf("x")]), [])
  {
    var res := M.Agnostic;
    var base, a := Box("r", [Box("s", [])]), Box("r", [Box("s", [Leaf("x")])]);
    var b := Box("r", [Box("s", []), Leaf("x")]);
    SamePlain(base, a, b);
    ListsAre(base, a, b);
    NothingDeleted(c, base, a, b);
    KidsAre(c, base, a, b);
    RunIs(c, base, a, b, ["s", "x"], [Box("s", [Leaf("x")]), Leaf("x")]);
  }

  lemma {:induction false} ListsAre(base: Node, a: Node, b: Node)
    requires base == Box("r", [Box("s", [])]) && a == Box("r", [Box("s", [Leaf("x")])])
    requires b == Box("r", [Box("s", []), Leaf("x")])
    ensures Ids(M.KidsOf(base)) == ["s"] && Ids(M.KidsOf(a)) == ["s"] && Ids(M.KidsOf(b)) == ["s", "x"]
    ensures M.MergedOrder(M.Agnostic, ["s"], ["s"], ["s", "x"]) == ["s", "x"]
    ensures M.OrderCell(M.Agnostic, "r", ["s"], ["s"], ["s", "x"]) == []
  {
  }

  lemma {:induction false} KidsAre(c: M.Context, base: Node, a: Node, b: Node)
    requires base == Box("r", [Box("s", [])]) && a == Box("r", [Box("s", [Leaf("x")])])
    requires b == Box("r", [Box("s", []), Leaf("x")])
    ensures M.MergeKids(M.Agnostic, c, ["s", "x"], base, M.KidsOf(a), M.KidsOf(b))
         == ([Box("s", [Leaf("x")]), Leaf("x")], [])
  {
    var aKids, bKids := M.KidsOf(a), M.KidsOf(b);
    Looked(base, a, b);
    InnerKid(c);
    MatchedIs(c, "s", base, aKids, bKids);
    AddedIs(c, "x", base, aKids, bKids);
    TwoStepKids(c, base, aKids, bKids);
    Paired(Box("s", [Leaf("x")]), Leaf("x"));
  }

  lemma {:induction false} Paired(k: Node, l: Node)
    ensures [k] + [l] == [k, l]
  {
  }

  lemma {:induction false} Looked(base: Node, a: Node, b: Node)
    requires base == Box("r", [Box("s", [])]) && a == Box("r", [Box("s", [Leaf("x")])])
    requires b == Box("r", [Box("s", []), Leaf("x")])
    ensures M.ById(M.KidsOf(base), "s") == Some(Box("s", [])) && M.ById(M.KidsOf(base), "x") == None
    ensures M.ById(M.KidsOf(a), "s") == Some(Box("s", [Leaf("x")])) && M.ById(M.KidsOf(a), "x") == None
    ensures M.ById(M.KidsOf(b), "s") == Some(Box("s", [])) && M.ById(M.KidsOf(b), "x") == Some(Leaf("x"))
  {
    ListsAre(base, a, b);
    L.ByIdDistinct(M.KidsOf(base), 0);
    L.ByIdDistinct(M.KidsOf(a), 0);
    L.ByIdDistinct(M.KidsOf(b), 0);
    L.ByIdDistinct(M.KidsOf(b), 1);
  }

  lemma {:induction false} MatchedIs(c: M.Context, x: Id, base: Node, a: seq<Node>, b: seq<Node>)
    requires M.ById(M.KidsOf(base), x).Some?
    ensures var run := M.Merge3(M.Agnostic, c, M.ById(M.KidsOf(base), x).value, M.ById(a, x), M.ById(b, x));
      M.MergeKid(M.Agnostic, c, x, base, a, b) == ([run.0], run.1)
  {
  }

  lemma {:induction false} AddedIs(c: M.Context, x: Id, base: Node, a: seq<Node>, b: seq<Node>)
    requires M.ById(M.KidsOf(base), x).None? && M.ById(a, x).None? && M.ById(b, x).Some?
    ensures M.MergeKid(M.Agnostic, c, x, base, a, b) == ([M.ById(b, x).value], [])
  {
  }

  // Boxes that differ in their children only.
  lemma {:induction false} SamePlain(base: Node, a: Node, b: Node)
    requires base == Box("r", base.kind.kids) && a == Box("r", a.kind.kids) && b == Box("r", b.kind.kids)
    ensures M.OwnCells(M.Agnostic, base, a, b) == []
    ensures forall kids :: M.MergedNode(M.Agnostic, base, a, b, kids) == Box("r", kids)
  {
    PlainStyles(M.Agnostic, base, a, b);
    assert M.KindProbe(base) == M.KindProbe(a) == M.KindProbe(b);
  }

  lemma {:induction false} RunIs(c: M.Context, base: Node, a: Node, b: Node, order: seq<Id>, kids: seq<Node>)
    requires var baseIds, aIds, bIds := Ids(M.KidsOf(base)), Ids(M.KidsOf(a)), Ids(M.KidsOf(b));
      && M.OwnCells(M.Agnostic, base, a, b) == []
      && M.DeleteCells(M.Agnostic, c, baseIds, M.KidsOf(base), M.KidsOf(a), M.KidsOf(b)) == []
      && M.OrderCell(M.Agnostic, base.id, baseIds, aIds, bIds) == []
      && M.MergedOrder(M.Agnostic, baseIds, aIds, bIds) == order
    requires M.MergeKids(M.Agnostic, c, order, base, M.KidsOf(a), M.KidsOf(b)) == (kids, [])
    ensures M.Merge3(M.Agnostic, c, base, Some(a), Some(b)) == (M.MergedNode(M.Agnostic, base, a, b, kids), [])
  {
  }

  lemma {:induction false} NothingDeleted(c: M.Context, base: Node, a: Node, b: Node)
    requires Ids(M.KidsOf(base)) == ["s"] && "s" in Ids(M.KidsOf(a)) && "s" in Ids(M.KidsOf(b))
    ensures M.DeleteCells(M.Agnostic, c, ["s"], M.KidsOf(base), M.KidsOf(a), M.KidsOf(b)) == []
  {
    assert ["s"][1..] == [];
    assert M.DeleteCells(M.Agnostic, c, ["s"][1..], M.KidsOf(base), M.KidsOf(a), M.KidsOf(b)) == [];
  }

  lemma {:induction false} TwoStepKids(c: M.Context, base: Node, a: seq<Node>, b: seq<Node>)
    ensures var s, x := M.MergeKid(M.Agnostic, c, "s", base, a, b), M.MergeKid(M.Agnostic, c, "x", base, a, b);
      M.MergeKids(M.Agnostic, c, ["s", "x"], base, a, b) == (s.0 + x.0, s.1 + x.1)
  {
    var x := M.MergeKid(M.Agnostic, c, "x", base, a, b);
    L.MergeKidsStep(M.Agnostic, c, "s", ["x"], base, a, b);
    L.MergeKidsStep(M.Agnostic, c, "x", [], base, a, b);
    assert ["s"] + ["x"] == ["s", "x"] && ["x"] + [] == ["x"];
    assert M.MergeKids(M.Agnostic, c, [], base, a, b) == ([], []);
    assert x.0 + [] == x.0 && x.1 + [] == x.1;
  }

  // Each branch adds the same node, under a different parent: the merge reports clean and
  // holds it twice.
  lemma {:induction false} MergeRepeatsAnId(before: (Node, Node) -> bool)
    ensures var base, a := Box("r", [Box("s", [])]), Box("r", [Box("s", [Leaf("x")])]);
      var b, m := Box("r", [Box("s", []), Leaf("x")]), Box("r", [Box("s", [Leaf("x")]), Leaf("x")]);
      && UniqueIds(base) && UniqueIds(a) && UniqueIds(b)
      && M.Merge3Way(before, base, a, b) == M.Merged(m, []) && Occ("x", m) == 2
  {
    var base, a := Box("r", [Box("s", [])]), Box("r", [Box("s", [Leaf("x")])]);
    var b := Box("r", [Box("s", []), Leaf("x")]);
    TwoPlaces(M.ContextOf(base, a, b, before));
    NoneMoved(base, a, b);
    assert M.MergeAll(M.Agnostic, before, base, a, b).1 == [] + [];
    TwoPlacesCounted();
  }

  lemma {:induction false} TwoPlacesCounted()
    ensures UniqueIds(Box("r", [Box("s", [])])) && UniqueIds(Box("r", [Box("s", [Leaf("x")])]))
    ensures UniqueIds(Box("r", [Box("s", []), Leaf("x")]))
    ensures Occ("x", Box("r", [Box("s", [Leaf("x")]), Leaf("x")])) == 2
  {
    Empty("s");
    LeafIs("x");
    BoxOfLeaf("s", "x");
    BoxIs("r", [Box("s", [])]);
    BoxIs("r", [Box("s", [Leaf("x")])]);
    BoxIs("r", [Box("s", []), Leaf("x")]);
    BoxIs("r", [Box("s", [Leaf("x")]), Leaf("x")]);
    forall y
      ensures Occ(y, Box("r", [Box("s", [])])) <= 1 && Occ(y, Box("r", [Box("s", [Leaf("x")])])) <= 1
      ensures Occ(y, Box("r", [Box("s", []), Leaf("x")])) <= 1
    {
      OneKid(y, Box("s", []));
      OneKid(y, Box("s", [Leaf("x")]));
      TwoKids(y, Box("s", []), Leaf("x"));
    }
    TwoKids("x", Box("s", [Leaf("x")]), Leaf("x"));
  }

  lemma {:induction false} NoneMoved(base: Node, a: Node, b: Node)
    requires base == Box("r", [Box("s", [])]) && a == Box("r", [Box("s", [Leaf("x")])])
    requires b == Box("r", [Box("s", []), Leaf("x")])
    ensures M.DetectMoves(M.Agnostic, base, a, b) == []
  {
    BasePlaces();
    InnerPlaces();
    OuterPlaces();
    SamePlaces(base, a, b);
  }

  // Where the branches agree on every shared place, nothing moved.
  lemma {:induction false} SamePlaces(base: Node, a: Node, b: Node)
    requires forall y | y in M.PlacementOf(a, "") && y in M.PlacementOf(b, "") && y in M.PlacementOf(base, "") ::
      M.PlacementOf(a, "")[y] == M.PlacementOf(b, "")[y]
    ensures M.DetectMoves(M.Agnostic, base, a, b) == []
  {
    M.PlacementIndexed(base, "");
    M.PlacementIndexed(a, "");
    M.PlacementIndexed(b, "");
    forall y ensures M.MoveCells(M.Agnostic, base, a, b, y) == [] {
    }
    L.NoMoves(M.Agnostic, base, a, b, Ordinal.SortedUnion(M.KidIds(base), []));
  }

  lemma {:induction false} BasePlaces()
    ensures M.PlacementOf(Box("r", [Box("s", [])]), "") == map["r" := "", "s" := "r"]
  {
    PlacedAlone(Box("s", []));
    PlacedOne("r", Box("s", []));
  }

  lemma {:induction false} InnerPlaces()
    ensures M.PlacementOf(Box("r", [Box("s", [Leaf("x")])]), "") == map["r" := "", "s" := "r", "x" := "s"]
  {
    PlacedAlone(Leaf("x"));
    PlacedOne("r", Box("s", [Leaf("x")]));
    PlacedOne("s", Leaf("x"));
  }

  lemma {:induction false} OuterPlaces()
    ensures M.PlacementOf(Box("r", [Box("s", []), Leaf("x")]), "") == map["r" := "", "s" := "r", "x" := "r"]
  {
    PlacedAlone(Box("s", []));
    PlacedAlone(Leaf("x"));
    PlacedTwo("r", Box("s", []), Leaf("x"));
  }

  lemma {:induction false} PlacedOne(id: Id, k: Node)
    ensures forall parent :: M.PlacementOf(Box(id, [k]), parent) == map[id := parent] + M.PlacementOf(k, id)
  {
    M.KidsSmaller(Box(id, [k]));
    assert [k][1..] == [];
    assert M.PlacementSeq([k], id) == M.PlacementOf(k, id) + map[];
  }

  lemma {:induction false} PlacedTwo(id: Id, k: Node, l: Node)
    ensures M.PlacementOf(Box(id, [k, l]), "") == map[id := ""] + (M.PlacementOf(k, id) + M.PlacementOf(l, id))
  {
    M.KidsSmaller(Box(id, [k, l]));
    assert [k, l][1..] == [l];
    PlacedLast(l, id);
  }

  lemma {:induction false} PlacedLast(l: Node, id: Id)
    ensures M.PlacementSeq([l], id) == M.PlacementOf(l, id)
  {
    assert [l][1..] == [];
    assert M.PlacementSeq([l], id) == M.PlacementOf(l, id) + map[];
  }
}
