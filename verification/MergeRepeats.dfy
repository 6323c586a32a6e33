// When a clean merge of unique trees repeats an id, whatever the branches relocated.
module MergeRepeats {
  import opened Wrappers
  import opened Tree
  import opened Ordinal
  import opened Merge
  import opened ApplySafety
  import opened MergeLaws
  import opened MergeUnique
  import opened MergeContent

  // -- What a merge takes over whole -----------------------------------------

  const Clean: Rule := Rule(Agnostic, true)

  // A facet is `a`'s when `a` changed it, or nobody did.
  predicate Takes<T(==)>(base: T, a: T, b: T) {
    a != base || b == base
  }

  // A child all three lists hold.
  predicate Matched(base: Node, a: Node, b: Node, cid: Id) {
    cid in Ids(KidsOf(base)) && cid in Ids(KidsOf(a)) && cid in Ids(KidsOf(b))
  }

  function Kid(n: Node, cid: Id): (c: Node)
    requires cid in Ids(KidsOf(n))
    ensures c in KidsOf(n) && c.id == cid && Size(c) < Size(n)
  {
    var c := ById(KidsOf(n), cid).value;
    KidSmaller(n, c);
    c
  }

  // The id is reached through matched children: the merge goes there.
  ghost predicate Visited(base: Node, a: Node, b: Node, x: Id)
    decreases Size(base), 1
  {
    x == base.id || exists cid :: VisitedVia(base, a, b, cid, x)
  }

  ghost predicate VisitedVia(base: Node, a: Node, b: Node, cid: Id, x: Id)
    decreases Size(base), 0
  {
    Matched(base, a, b, cid) && Visited(Kid(base, cid), Kid(a, cid), Kid(b, cid), x)
  }

  // The id stands in a part of `a` that the merge takes over as it is: a child the base list
  // lacks, unless the list is dropped, a placeholder, or an arm of a kind without children.
  ghost predicate GraftedHere(base: Node, a: Node, b: Node, x: Id) {
    || (!Drops(Clean, base, a, b) && exists c :: c in KidsOf(a) && c.id !in Ids(KidsOf(base)) && Occ(x, c) >= 1)
    || (Takes(base.state, a.state, b.state) && OccSeq(x, StateNodes(a.state)) >= 1)
    || (!IsLayout(a) && Takes(Childless(base.kind), a.kind, Childless(b.kind)) && OccSeq(x, a.kind.kids) >= 1)
  }

  ghost predicate Grafted(base: Node, a: Node, b: Node, x: Id)
    decreases Size(base), 1
  {
    GraftedHere(base, a, b, x) || exists cid :: GraftedVia(base, a, b, cid, x)
  }

  ghost predicate GraftedVia(base: Node, a: Node, b: Node, cid: Id, x: Id)
    decreases Size(base), 0
  {
    Matched(base, a, b, cid) && Grafted(Kid(base, cid), Kid(a, cid), Kid(b, cid), x)
  }

  // -- Where such ids stand in their branch ----------------------------------

  lemma {:induction false} VisitedSwap(base: Node, a: Node, b: Node, x: Id)
    ensures Visited(base, a, b, x) <==> Visited(base, b, a, x)
    decreases Size(base)
  {
    forall cid ensures VisitedVia(base, a, b, cid, x) <==> VisitedVia(base, b, a, cid, x) {
      if Matched(base, a, b, cid) {
        VisitedSwap(Kid(base, cid), Kid(a, cid), Kid(b, cid), x);
      }
    }
  }

  lemma {:induction false} VisitedOccurs(base: Node, a: Node, b: Node, x: Id)
    requires base.id == a.id && Visited(base, a, b, x)
    ensures Occ(x, a) >= 1
    decreases Size(base)
  {
    if x != base.id {
      var cid :| VisitedVia(base, a, b, cid, x);
      VisitedOccurs(Kid(base, cid), Kid(a, cid), Kid(b, cid), x);
      KidOccurs(a, Kid(a, cid), x);
    }
  }

  // A slot of `a` that holds the id.
  lemma {:induction false} GraftedSlot(base: Node, a: Node, b: Node, x: Id) returns (i: nat)
    requires GraftedHere(base, a, b, x)
    ensures i < |Slots(a)| && Occ(x, Slots(a)[i]) >= 1
    ensures i < |KidsOf(a)| ==> KidsOf(a)[i].id !in Ids(KidsOf(base))
  {
    if c :| c in KidsOf(a) && c.id !in Ids(KidsOf(base)) && Occ(x, c) >= 1 {
      i := KidAt(a, c);
    } else if OccSeq(x, StateNodes(a.state)) >= 1 {
      i := StateSlot(a, x);
    } else {
      i := ArmSlot(a, x);
    }
  }

  lemma {:induction false} StateSlot(n: Node, x: Id) returns (i: nat)
    requires OccSeq(x, StateNodes(n.state)) >= 1
    ensures |n.kind.kids| <= i < |Slots(n)| && Occ(x, Slots(n)[i]) >= 1
    ensures Slots(n)[i] == StateNodes(n.state)[i - |n.kind.kids|]
  {
    var k := HolderOf(x, StateNodes(n.state));
    i := |n.kind.kids| + k;
    SlotParts(n);
    assert Slots(n)[i] == StateNodes(n.state)[k];
  }

  lemma {:induction false} ArmSlot(n: Node, x: Id) returns (i: nat)
    requires OccSeq(x, n.kind.kids) >= 1
    ensures i < |n.kind.kids| <= |Slots(n)| && Occ(x, Slots(n)[i]) >= 1 && Slots(n)[i] == n.kind.kids[i]
  {
    SlotParts(n);
    i := HolderOf(x, n.kind.kids);
  }

  lemma {:induction false} VisitedKid(base: Node, a: Node, b: Node, x: Id) returns (cid: Id)
    requires Visited(base, a, b, x) && x != base.id
    ensures VisitedVia(base, a, b, cid, x)
  {
    cid :| VisitedVia(base, a, b, cid, x);
  }

  lemma {:induction false} GraftedKid(base: Node, a: Node, b: Node, x: Id) returns (cid: Id)
    requires Grafted(base, a, b, x) && !GraftedHere(base, a, b, x)
    ensures Matched(base, a, b, cid) && Grafted(Kid(base, cid), Kid(a, cid), Kid(b, cid), x)
  {
    cid :| GraftedVia(base, a, b, cid, x);
  }

  lemma {:induction false} HereOccurs(base: Node, a: Node, b: Node, x: Id)
    requires GraftedHere(base, a, b, x)
    ensures OccSeq(x, Slots(a)) >= 1
  {
    var i := GraftedSlot(base, a, b, x);
    OccMember(x, Slots(a), i);
  }

  lemma {:induction false} GraftedOccurs(base: Node, a: Node, b: Node, x: Id)
    requires Grafted(base, a, b, x)
    ensures OccSeq(x, Slots(a)) >= 1
    decreases Size(base)
  {
    if GraftedHere(base, a, b, x) {
      HereOccurs(base, a, b, x);
    } else {
      var cid := GraftedKid(base, a, b, x);
      GraftedOccurs(Kid(base, cid), Kid(a, cid), Kid(b, cid), x);
      KidHolds(a, cid, x);
    }
  }

  lemma {:induction false} KidHolds(n: Node, cid: Id, x: Id)
    requires cid in Ids(KidsOf(n)) && Occ(x, Kid(n, cid)) >= 1
    ensures OccSeq(x, Slots(n)) >= 1
  {
    var i := KidAt(n, Kid(n, cid));
    OccMember(x, Slots(n), i);
  }

  lemma {:induction false} TwoSlots(n: Node, i: nat, j: nat, x: Id)
    requires UniqueIds(n) && i < |Slots(n)| && j < |Slots(n)| && Occ(x, Slots(n)[i]) >= 1 && Occ(x, Slots(n)[j]) >= 1
    ensures i == j
  {
    assert Occ(x, n) <= 1;
    if i < j {
      OccTwo(x, Slots(n), i, j);
    } else if j < i {
      OccTwo(x, Slots(n), j, i);
    }
  }

  // In a branch without repeats an id is visited or grafted, not both.
  lemma {:induction false} NotBoth(base: Node, a: Node, b: Node, x: Id)
    requires base.id == a.id == b.id && UniqueIds(a) && Visited(base, a, b, x)
    ensures !Grafted(base, a, b, x)
    decreases Size(base)
  {
    if Grafted(base, a, b, x) {
      GraftedOccurs(base, a, b, x);
      NotRoot(a, x);
      var cid := VisitedKid(base, a, b, x);
      UniqueKids(a);
      GraftedWhereVisited(base, a, b, x, cid);
      NotBoth(Kid(base, cid), Kid(a, cid), Kid(b, cid), x);
    }
  }

  lemma {:induction false} GraftedWhereVisited(base: Node, a: Node, b: Node, x: Id, cid: Id)
    requires UniqueIds(a) && VisitedVia(base, a, b, cid, x) && Grafted(base, a, b, x)
    ensures Grafted(Kid(base, cid), Kid(a, cid), Kid(b, cid), x)
  {
    VisitedOccurs(Kid(base, cid), Kid(a, cid), Kid(b, cid), x);
    if GraftedHere(base, a, b, x) {
      GraftedOutside(base, a, b, x, cid);
    } else {
      var did := GraftedKid(base, a, b, x);
      GraftedOccurs(Kid(base, did), Kid(a, did), Kid(b, did), x);
      SameKid(a, cid, did, x);
    }
  }

  lemma {:induction false} NotRoot(n: Node, x: Id)
    requires UniqueIds(n) && OccSeq(x, Slots(n)) >= 1
    ensures x != n.id
  {
    assert Occ(x, n) <= 1;
  }

  lemma {:induction false} SameKid(n: Node, cid: Id, did: Id, x: Id)
    requires UniqueIds(n) && cid in Ids(KidsOf(n)) && did in Ids(KidsOf(n))
    requires Occ(x, Kid(n, cid)) >= 1 && Occ(x, Kid(n, did)) >= 1
    ensures cid == did
  {
    var i := KidAt(n, Kid(n, cid));
    var j := KidAt(n, Kid(n, did));
    TwoSlots(n, i, j, x);
  }

  // No matched child holds what is grafted beside it.
  lemma {:induction false} GraftedOutside(base: Node, a: Node, b: Node, x: Id, cid: Id)
    requires UniqueIds(a) && GraftedHere(base, a, b, x) && Matched(base, a, b, cid)
    ensures Occ(x, Kid(a, cid)) == 0
  {
    if Occ(x, Kid(a, cid)) >= 1 {
      var i := KidAt(a, Kid(a, cid));
      var j := GraftedSlot(base, a, b, x);
      TwoSlots(a, i, j, x);
    }
  }

  // -- One clean node --------------------------------------------------------

  // The three versions meet at this node of three whole trees, and their merge is clean.
  ghost predicate CleanAt(c: Context, base: Node, a: Node, b: Node) {
    && base.id == a.id == b.id && UniqueIds(base) && UniqueIds(a) && UniqueIds(b)
    && Merge3(Agnostic, c, base, Some(a), Some(b)).1 == []
  }

  function Order(base: Node, a: Node, b: Node): seq<Id> {
    MergedOrder(Agnostic, Ids(KidsOf(base)), Ids(KidsOf(a)), Ids(KidsOf(b)))
  }

  function MergedKids(c: Context, base: Node, a: Node, b: Node): seq<Node> {
    MergeKids(Agnostic, c, Order(base, a, b), base, KidsOf(a), KidsOf(b)).0
  }

  lemma {:induction false} CleanList(c: Context, base: Node, a: Node, b: Node)
    requires CleanAt(c, base, a, b)
    ensures OwnCells(Agnostic, base, a, b) == []
    ensures MergeKids(Agnostic, c, Order(base, a, b), base, KidsOf(a), KidsOf(b)).1 == []
    ensures !OrderClash(Ids(KidsOf(base)), Ids(KidsOf(a)), Ids(KidsOf(b)))
    ensures NoRepeat(Order(base, a, b))
    ensures forall x :: x in Order(base, a, b) <==>
      Survives(x in Ids(KidsOf(base)), x in Ids(KidsOf(a)), x in Ids(KidsOf(b)))
  {
    var baseIds, aIds, bIds := Ids(KidsOf(base)), Ids(KidsOf(a)), Ids(KidsOf(b));
    NoneOf(
      OwnCells(Agnostic, base, a, b), DeleteCells(Agnostic, c, baseIds, KidsOf(base), KidsOf(a), KidsOf(b)),
      OrderCell(Agnostic, base.id, baseIds, aIds, bIds),
      MergeKids(Agnostic, c, Order(base, a, b), base, KidsOf(a), KidsOf(b)).1);
    OrderLaw(Agnostic, baseIds, aIds, bIds);
    ListDistinct(base);
    ListDistinct(a);
    ListDistinct(b);
    OrderNoRepeat(Agnostic, baseIds, aIds, bIds);
  }

  lemma {:induction false} ListDistinct(n: Node)
    requires UniqueIds(n)
    ensures NoRepeat(Ids(KidsOf(n)))
  {
    UniqueKids(n);
    forall i, j | 0 <= i < j < |Ids(KidsOf(n))| ensures Ids(KidsOf(n))[i] != Ids(KidsOf(n))[j] {
      assert KidsOf(n)[i].id != KidsOf(n)[j].id;
    }
  }

  lemma {:induction false} CleanKid(c: Context, base: Node, a: Node, b: Node, order: seq<Id>, j: nat)
    requires MergeKids(Agnostic, c, order, base, KidsOf(a), KidsOf(b)).1 == []
    requires forall x | x in order :: Survives(x in Ids(KidsOf(base)), x in Ids(KidsOf(a)), x in Ids(KidsOf(b)))
    requires j < |order|
    ensures var kids := MergeKids(Agnostic, c, order, base, KidsOf(a), KidsOf(b)).0;
      && |kids| == |order| && [kids[j]] == MergeKid(Agnostic, c, order[j], base, KidsOf(a), KidsOf(b)).0
      && MergeKid(Agnostic, c, order[j], base, KidsOf(a), KidsOf(b)).1 == []
    decreases |order|
  {
    var head := MergeKid(Agnostic, c, order[0], base, KidsOf(a), KidsOf(b));
    var rest := MergeKids(Agnostic, c, order[1..], base, KidsOf(a), KidsOf(b));
    assert head.1 + rest.1 == [];
    OneNode(c, base, a, b, order[0]);
    if j > 0 {
      CleanKid(c, base, a, b, order[1..], j - 1);
    } else if |order| > 1 {
      CleanKid(c, base, a, b, order[1..], 0);
    }
  }

  lemma {:induction false} OneNode(c: Context, base: Node, a: Node, b: Node, x: Id)
    requires Survives(x in Ids(KidsOf(base)), x in Ids(KidsOf(a)), x in Ids(KidsOf(b)))
    ensures |MergeKid(Agnostic, c, x, base, KidsOf(a), KidsOf(b)).0| == 1
    ensures MergeKid(Agnostic, c, x, base, KidsOf(a), KidsOf(b)).0[0].id == x
  {
  }

  // What stands in the merged list: the merge of a matched child, or a new one as it is.
  lemma {:induction false} KidIs(c: Context, base: Node, a: Node, b: Node, x: Id)
    requires Survives(x in Ids(KidsOf(base)), x in Ids(KidsOf(a)), x in Ids(KidsOf(b)))
    requires MergeKid(Agnostic, c, x, base, KidsOf(a), KidsOf(b)).1 == []
    ensures var k := MergeKid(Agnostic, c, x, base, KidsOf(a), KidsOf(b)).0;
      && (x in Ids(KidsOf(base)) ==>
            && Matched(base, a, b, x)
            && Merge3(Agnostic, c, Kid(base, x), Some(Kid(a, x)), Some(Kid(b, x))).1 == []
            && k == [Merge3(Agnostic, c, Kid(base, x), Some(Kid(a, x)), Some(Kid(b, x))).0])
      && (x !in Ids(KidsOf(base)) && x in Ids(KidsOf(a)) ==> k == [Kid(a, x)])
      && (x !in Ids(KidsOf(base)) && x in Ids(KidsOf(b)) ==> k == [Kid(b, x)])
  {
  }

  lemma {:induction false} CleanBelow(c: Context, base: Node, a: Node, b: Node, cid: Id)
    requires CleanAt(c, base, a, b) && Matched(base, a, b, cid)
    ensures CleanAt(c, Kid(base, cid), Kid(a, cid), Kid(b, cid))
    ensures Merge3(Agnostic, c, Kid(base, cid), Some(Kid(a, cid)), Some(Kid(b, cid))).0 in MergedKids(c, base, a, b)
  {
    CleanList(c, base, a, b);
    UniqueKids(base);
    UniqueKids(a);
    UniqueKids(b);
    var j := PlaceOf(Order(base, a, b), cid);
    CleanKid(c, base, a, b, Order(base, a, b), j);
    KidIs(c, base, a, b, cid);
  }

  lemma {:induction false} PlaceOf(ids: seq<Id>, x: Id) returns (j: nat)
    requires x in ids
    ensures j < |ids| && ids[j] == x
  {
    j :| 0 <= j < |ids| && ids[j] == x;
  }

  lemma {:induction false} NewKid(c: Context, base: Node, a: Node, b: Node, x: Id)
    requires CleanAt(c, base, a, b) && x !in Ids(KidsOf(base)) && (x in Ids(KidsOf(a)) || x in Ids(KidsOf(b)))
    ensures x in Ids(KidsOf(a)) ==> Kid(a, x) in MergedKids(c, base, a, b)
    ensures x in Ids(KidsOf(b)) ==> Kid(b, x) in MergedKids(c, base, a, b)
  {
    CleanList(c, base, a, b);
    var j := PlaceOf(Order(base, a, b), x);
    CleanKid(c, base, a, b, Order(base, a, b), j);
    KidIs(c, base, a, b, x);
  }

  // The merged node of a clean run: its own parts are a branch's, its list the merged one or dropped.
  lemma {:induction false} CleanParts(c: Context, base: Node, a: Node, b: Node)
    requires CleanAt(c, base, a, b)
    ensures var m := Merge3(Agnostic, c, base, Some(a), Some(b)).0;
      && m.id == base.id && KidsOf(m) == (if IsLayout(m) then MergedKids(c, base, a, b) else [])
      && (Takes(base.state, a.state, b.state) ==> m.state == a.state)
      && (Takes(base.state, b.state, a.state) ==> m.state == b.state)
      && (Takes(base.state, a.state, b.state) || Takes(base.state, b.state, a.state))
  {
    CleanList(c, base, a, b);
    OwnCellsParts(Agnostic, base, a, b);
    StateSettles(Clean, base, a, b);
    KindSettles(Clean, base, a, b);
  }

  lemma {:induction false} CleanKind(c: Context, base: Node, a: Node, b: Node)
    requires CleanAt(c, base, a, b)
    ensures var m := Merge3(Agnostic, c, base, Some(a), Some(b)).0;
      var bk, ak, ck := Childless(base.kind), Childless(a.kind), Childless(b.kind);
      && (Takes(bk, ak, ck) ==> Childless(m.kind) == ak)
      && (Takes(bk, ck, ak) ==> Childless(m.kind) == ck)
      && (Takes(bk, ak, ck) || Takes(bk, ck, ak))
      && (IsLayout(m) <==> IsLayoutTag(Childless(m.kind).tag))
      && (!IsLayout(m) ==> m.kind == Childless(m.kind))
  {
    CleanList(c, base, a, b);
    OwnCellsParts(Agnostic, base, a, b);
    KindSettles(Clean, base, a, b);
  }

  // A list that is not dropped is kept.
  lemma {:induction false} ListKept(c: Context, base: Node, a: Node, b: Node)
    requires CleanAt(c, base, a, b) && MergedKids(c, base, a, b) != []
    ensures var m := Merge3(Agnostic, c, base, Some(a), Some(b)).0; IsLayout(m) <==> !Drops(Clean, base, a, b)
  {
    var m := Merge3(Agnostic, c, base, Some(a), Some(b)).0;
    CleanList(c, base, a, b);
    OwnCellsParts(Agnostic, base, a, b);
    KindSettles(Clean, base, a, b);
    CleanKind(c, base, a, b);
    if !IsLayout(m) {
      OrderDrops(Clean, base, a, b, Childless(m.kind));
    }
  }

  // -- Everything grafted is there -------------------------------------------

  ghost predicate HangsAs(m: Node, x: Id, owner: Owner) {
    exists p :: ValidPath(m, p) && p != [] && NodeAt(m, p).id == x && OwnerIn(m, p) == owner
  }

  lemma {:induction false} HangsBelow(m: Node, i: nat, x: Id, owner: Owner)
    requires i < |Slots(m)| && HangsAs(Slots(m)[i], x, owner)
    ensures HangsAs(m, x, owner)
  {
    var q :| ValidPath(Slots(m)[i], q) && q != [] && NodeAt(Slots(m)[i], q).id == x && OwnerIn(Slots(m)[i], q) == owner;
    BelowSlot(m, i, q);
    AboveValid(Slots(m)[i], q);
    BelowSlot(m, i, Above(q));
    assert Above([i] + q) == [i] + Above(q);
    assert OwnerIn(m, [i] + q) == owner;
  }

  lemma {:induction false} OwnerBelow(whole: Node, r: Path, q: Path)
    requires ValidPath(whole, r) && ValidPath(NodeAt(whole, r), q) && q != []
    ensures ValidPath(whole, r + q) && NodeAt(whole, r + q) == NodeAt(NodeAt(whole, r), q)
    ensures OwnerIn(whole, r + q) == OwnerIn(NodeAt(whole, r), q)
  {
    var n := NodeAt(whole, r);
    PathConcat(whole, r, q);
    AboveValid(n, q);
    PathConcat(whole, r, Above(q));
    LastOfBoth(r, q);
    assert NodeAt(whole, Above(r + q)) == NodeAt(n, Above(q));
  }

  lemma {:induction false} LastOfBoth(r: Path, q: Path)
    requires q != []
    ensures r + q != [] && Above(r + q) == r + Above(q) && (r + q)[|r + q| - 1] == q[|q| - 1]
  {
  }

  lemma {:induction false} BelowPath(n: Node, x: Id) returns (q: Path)
    requires OccSeq(x, Slots(n)) >= 1
    ensures q != [] && ValidPath(n, q) && NodeAt(n, q).id == x
  {
    var i := HolderOf(x, Slots(n));
    var p := PathTo(x, Slots(n)[i]);
    BelowSlot(n, i, p);
    q := [i] + p;
  }

  // Strictly inside a part of a tree an id hangs as it does in the whole.
  lemma {:induction false} InsideHangs(whole: Node, n: Node, x: Id)
    requires UniqueIds(whole) && Inside(whole, n) && OccSeq(x, Slots(n)) >= 1
    ensures x in OwnersOf(whole) && HangsAs(n, x, OwnersOf(whole)[x])
  {
    var r :| ValidPath(whole, r) && NodeAt(whole, r) == n;
    var q := BelowPath(n, x);
    OwnerBelow(whole, r, q);
    UniqueOwner(whole, r + q);
  }

  lemma {:induction false} RootHangs(m: Node, j: nat)
    requires j < |Slots(m)|
    ensures HangsAs(m, Slots(m)[j].id, OwnerAt(m, j))
  {
    BelowSlot(m, j, []);
    assert Above([j]) == [] && [j] + [] == [j];
    assert OwnerIn(m, [j]) == OwnerAt(m, j);
  }

  // A slot taken over from a branch brings its ids where they hang in that branch.
  lemma {:induction false} SlotHangs(m: Node, j: nat, n: Node, i: nat, whole: Node, x: Id)
    requires j < |Slots(m)| && i < |Slots(n)| && Slots(m)[j] == Slots(n)[i] && OwnerAt(m, j) == OwnerAt(n, i)
    requires UniqueIds(whole) && Inside(whole, n) && Occ(x, Slots(n)[i]) >= 1
    ensures x in OwnersOf(whole) && HangsAs(m, x, OwnersOf(whole)[x])
  {
    var r :| ValidPath(whole, r) && NodeAt(whole, r) == n;
    SlotOwner(whole, r, i);
    if x == Slots(n)[i].id {
      RootHangs(m, j);
    } else {
      InsideHangs(whole, Slots(n)[i], x);
      HangsBelow(m, j, x, OwnersOf(whole)[x]);
    }
  }

  lemma {:induction false} DropsSwap(base: Node, a: Node, b: Node)
    ensures Drops(Clean, base, a, b) <==> Drops(Clean, base, b, a)
  {
  }

  lemma {:induction false} GraftHangs(
    c: Context, base: Node, a: Node, b: Node, v: Node, w: Node, whole: Node, x: Id)
    requires CleanAt(c, base, a, b) && ((v == a && w == b) || (v == b && w == a))
    requires UniqueIds(whole) && Inside(whole, v) && Grafted(base, v, w, x)
    ensures x in OwnersOf(whole) && HangsAs(Merge3(Agnostic, c, base, Some(a), Some(b)).0, x, OwnersOf(whole)[x])
    decreases Size(base)
  {
    if GraftedHere(base, v, w, x) {
      GraftHangsHere(c, base, a, b, v, w, whole, x);
    } else {
      var cid :| GraftedVia(base, v, w, cid, x);
      var m := Merge3(Agnostic, c, base, Some(a), Some(b)).0;
      CleanBelow(c, base, a, b, cid);
      InsideKid(whole, v, Kid(v, cid));
      GraftHangs(c, Kid(base, cid), Kid(a, cid), Kid(b, cid), Kid(v, cid), Kid(w, cid), whole, x);
      CleanParts(c, base, a, b);
      ListKept(c, base, a, b);
      var k := Merge3(Agnostic, c, Kid(base, cid), Some(Kid(a, cid)), Some(Kid(b, cid))).0;
      var j := KidAt(m, k);
      HangsBelow(m, j, x, OwnersOf(whole)[x]);
    }
  }

  lemma {:induction false} GraftHangsHere(
    c: Context, base: Node, a: Node, b: Node, v: Node, w: Node, whole: Node, x: Id)
    requires CleanAt(c, base, a, b) && ((v == a && w == b) || (v == b && w == a))
    requires UniqueIds(whole) && Inside(whole, v) && GraftedHere(base, v, w, x)
    ensures x in OwnersOf(whole) && HangsAs(Merge3(Agnostic, c, base, Some(a), Some(b)).0, x, OwnersOf(whole)[x])
  {
    if d :| d in KidsOf(v) && d.id !in Ids(KidsOf(base)) && Occ(x, d) >= 1 && !Drops(Clean, base, v, w) {
      NewKidHangs(c, base, a, b, v, w, whole, x, d);
    } else if Takes(base.state, v.state, w.state) && OccSeq(x, StateNodes(v.state)) >= 1 {
      CleanParts(c, base, a, b);
      StateHangs(Merge3(Agnostic, c, base, Some(a), Some(b)).0, v, whole, x);
    } else {
      CleanKind(c, base, a, b);
      CleanParts(c, base, a, b);
      ArmHangs(Merge3(Agnostic, c, base, Some(a), Some(b)).0, v, whole, x);
    }
  }

  lemma {:induction false} StateHangs(m: Node, v: Node, whole: Node, x: Id)
    requires m.id == v.id && m.state == v.state && UniqueIds(whole) && Inside(whole, v)
    requires OccSeq(x, StateNodes(v.state)) >= 1
    ensures x in OwnersOf(whole) && HangsAs(m, x, OwnersOf(whole)[x])
  {
    SlotParts(m);
    var i := StateSlot(v, x);
    SlotHangs(m, |m.kind.kids| + (i - |v.kind.kids|), v, i, whole, x);
  }

  lemma {:induction false} ArmHangs(m: Node, v: Node, whole: Node, x: Id)
    requires m.id == v.id && m.kind == v.kind && UniqueIds(whole) && Inside(whole, v)
    requires OccSeq(x, v.kind.kids) >= 1
    ensures x in OwnersOf(whole) && HangsAs(m, x, OwnersOf(whole)[x])
  {
    SlotParts(m);
    var i := ArmSlot(v, x);
    SlotHangs(m, i, v, i, whole, x);
  }

  lemma {:induction false} NewKidHangs(
    c: Context, base: Node, a: Node, b: Node, v: Node, w: Node, whole: Node, x: Id, d: Node)
    requires CleanAt(c, base, a, b) && ((v == a && w == b) || (v == b && w == a))
    requires UniqueIds(whole) && Inside(whole, v) && !Drops(Clean, base, v, w)
    requires d in KidsOf(v) && d.id !in Ids(KidsOf(base)) && Occ(x, d) >= 1
    ensures x in OwnersOf(whole) && HangsAs(Merge3(Agnostic, c, base, Some(a), Some(b)).0, x, OwnersOf(whole)[x])
  {
    var m := Merge3(Agnostic, c, base, Some(a), Some(b)).0;
    var i := KidAt(v, d);
    UniqueKids(v);
    ByIdDistinct(KidsOf(v), i);
    assert Ids(KidsOf(v))[i] == d.id;
    NewKid(c, base, a, b, d.id);
    DropsSwap(base, v, w);
    ListKept(c, base, a, b);
    CleanParts(c, base, a, b);
    var j := KidAt(m, d);
    SlotHangs(m, j, v, i, whole, x);
  }

  // -- And nothing else hangs elsewhere --------------------------------------

  ghost predicate Agreed(owners: Owners, whole: Node, x: Id) {
    x in owners && x in OwnersOf(whole) && owners[x] == OwnersOf(whole)[x]
  }

  // The owners say of visited ids and of each branch's grafts what that branch says.
  ghost predicate Claims(base: Node, a: Node, b: Node, wholeA: Node, wholeB: Node, owners: Owners) {
    && (forall x | Visited(base, a, b, x) :: Agreed(owners, wholeA, x))
    && (forall x | Grafted(base, a, b, x) :: Agreed(owners, wholeA, x))
    && (forall x | Grafted(base, b, a, x) :: Agreed(owners, wholeB, x))
  }

  lemma {:induction false} ClaimsBelow(
    base: Node, a: Node, b: Node, wholeA: Node, wholeB: Node, owners: Owners, cid: Id)
    requires Claims(base, a, b, wholeA, wholeB, owners) && Matched(base, a, b, cid)
    ensures Claims(Kid(base, cid), Kid(a, cid), Kid(b, cid), wholeA, wholeB, owners)
  {
    var bc, ac, bb := Kid(base, cid), Kid(a, cid), Kid(b, cid);
    forall x | Visited(bc, ac, bb, x) ensures Agreed(owners, wholeA, x) {
      assert VisitedVia(base, a, b, cid, x);
    }
    forall x | Grafted(bc, ac, bb, x) ensures Agreed(owners, wholeA, x) {
      assert GraftedVia(base, a, b, cid, x);
    }
    forall x | Grafted(bc, bb, ac, x) ensures Agreed(owners, wholeB, x) {
      assert GraftedVia(base, b, a, cid, x);
    }
  }

  lemma {:induction false} Retidy(n: Node, owners: Owners, others: Owners)
    requires Tidy(n, {}, owners)
    requires forall x | OccSeq(x, Slots(n)) >= 1 :: x in owners && x in others && others[x] == owners[x]
    ensures Tidy(n, {}, others)
    decreases Size(n)
  {
    SlotSizes(n);
    forall i | 0 <= i < |Slots(n)|
      ensures Tidy(Slots(n)[i], {}, others) && Slots(n)[i].id in others && others[Slots(n)[i].id] == OwnerAt(n, i)
    {
      forall x | OccSeq(x, Slots(Slots(n)[i])) >= 1 ensures x in owners && x in others && others[x] == owners[x] {
        OccMember(x, Slots(n), i);
      }
      Retidy(Slots(n)[i], owners, others);
      OccMember(Slots(n)[i].id, Slots(n), i);
      assert Occ(Slots(n)[i].id, Slots(n)[i]) >= 1;
    }
  }

  // A slot of a branch whose ids all hang as in the branch.
  lemma {:induction false} SlotTidy(whole: Node, n: Node, i: nat, owners: Owners)
    requires UniqueIds(whole) && Inside(whole, n) && i < |Slots(n)|
    requires forall x | Occ(x, Slots(n)[i]) >= 1 :: Agreed(owners, whole, x)
    ensures Tidy(Slots(n)[i], {}, owners)
    ensures Slots(n)[i].id in owners && owners[Slots(n)[i].id] == OwnerAt(n, i)
  {
    var r :| ValidPath(whole, r) && NodeAt(whole, r) == n;
    var s := Slots(n)[i];
    SlotOwner(whole, r, i);
    UniqueTidyAt(whole, r + [i], {});
    assert Occ(s.id, s) >= 1;
    forall x | OccSeq(x, Slots(s)) >= 1 ensures Agreed(owners, whole, x) {
      assert Occ(x, s) >= 1;
    }
    Retidy(s, OwnersOf(whole), owners);
  }

  lemma {:induction false} PartTidy(whole: Node, n: Node, part: seq<Node>, from: nat, owner: Owner, owners: Owners)
    requires UniqueIds(whole) && UniqueIds(n) && Inside(whole, n) && from + |part| <= |Slots(n)|
    requires forall k | 0 <= k < |part| :: part[k] == Slots(n)[from + k] && OwnerAt(n, from + k) == owner
    requires forall x | OccSeq(x, part) >= 1 :: Agreed(owners, whole, x)
    ensures Owned(part, {}, owners, owner) && forall k | 0 <= k < |part| :: Tidy(part[k], {}, owners)
  {
    forall k | 0 <= k < |part|
      ensures Tidy(part[k], {}, owners) && part[k].id in owners && owners[part[k].id] == owner
    {
      forall x | Occ(x, Slots(n)[from + k]) >= 1 ensures Agreed(owners, whole, x) {
        OccMember(x, part, k);
      }
      SlotTidy(whole, n, from + k, owners);
    }
    forall k, l | 0 <= k < l < |part| ensures part[k].id != part[l].id {
      UniqueSiblings(n, [], from + k, from + l);
    }
  }

  // The merged node's placeholders, from whichever branch they are.
  lemma {:induction false} StateTidy(base: Node, v: Node, w: Node, whole: Node, owners: Owners)
    requires UniqueIds(whole) && UniqueIds(v) && Inside(whole, v) && Takes(base.state, v.state, w.state)
    requires forall x | Grafted(base, v, w, x) :: Agreed(owners, whole, x)
    ensures Owned(StateNodes(v.state), {}, owners, Placeholder(v.id))
    ensures forall k | 0 <= k < |StateNodes(v.state)| :: Tidy(StateNodes(v.state)[k], {}, owners)
  {
    SlotParts(v);
    forall x | OccSeq(x, StateNodes(v.state)) >= 1 ensures Agreed(owners, whole, x) {
      assert GraftedHere(base, v, w, x);
    }
    forall k | 0 <= k < |StateNodes(v.state)|
      ensures StateNodes(v.state)[k] == Slots(v)[|v.kind.kids| + k]
      ensures OwnerAt(v, |v.kind.kids| + k) == Placeholder(v.id)
    {
    }
    PartTidy(whole, v, StateNodes(v.state), |v.kind.kids|, Placeholder(v.id), owners);
  }

  lemma {:induction false} ArmGrafted(base: Node, v: Node, w: Node, x: Id)
    requires !IsLayout(v) && Takes(Childless(base.kind), v.kind, Childless(w.kind)) && OccSeq(x, v.kind.kids) >= 1
    ensures Grafted(base, v, w, x)
  {
    assert GraftedHere(base, v, w, x);
  }

  // The arms of a merged kind without children, likewise.
  lemma {:induction false} ArmsTidy(base: Node, v: Node, w: Node, whole: Node, owners: Owners)
    requires UniqueIds(whole) && UniqueIds(v) && Inside(whole, v) && !IsLayout(v)
    requires Takes(Childless(base.kind), v.kind, Childless(w.kind))
    requires forall x | Grafted(base, v, w, x) :: Agreed(owners, whole, x)
    ensures Owned(v.kind.kids, {}, owners, Owner.Kid(v.id))
    ensures forall k | 0 <= k < |v.kind.kids| :: Tidy(v.kind.kids[k], {}, owners)
  {
    forall x | OccSeq(x, v.kind.kids) >= 1 ensures Agreed(owners, whole, x) {
      ArmGrafted(base, v, w, x);
    }
    ArmsTidyAt(v, whole, owners);
  }

  lemma {:induction false} ArmsTidyAt(v: Node, whole: Node, owners: Owners)
    requires UniqueIds(whole) && UniqueIds(v) && Inside(whole, v)
    requires forall x | OccSeq(x, v.kind.kids) >= 1 :: Agreed(owners, whole, x)
    ensures Owned(v.kind.kids, {}, owners, Owner.Kid(v.id))
    ensures forall k | 0 <= k < |v.kind.kids| :: Tidy(v.kind.kids[k], {}, owners)
  {
    SlotParts(v);
    forall k | 0 <= k < |v.kind.kids|
      ensures v.kind.kids[k] == Slots(v)[0 + k] && OwnerAt(v, 0 + k) == Owner.Kid(v.id)
    {
    }
    PartTidy(whole, v, v.kind.kids, 0, Owner.Kid(v.id), owners);
  }

  // A new child, whole.
  lemma {:induction false} NewKidTidy(base: Node, v: Node, w: Node, whole: Node, owners: Owners, x: Id)
    requires UniqueIds(whole) && Inside(whole, v) && !Drops(Clean, base, v, w)
    requires x in Ids(KidsOf(v)) && x !in Ids(KidsOf(base))
    requires forall y | Grafted(base, v, w, y) :: Agreed(owners, whole, y)
    ensures Tidy(Kid(v, x), {}, owners) && x in owners && owners[x] == Owner.Kid(v.id)
  {
    var d := Kid(v, x);
    var i := KidAt(v, d);
    forall y | Occ(y, d) >= 1 ensures Agreed(owners, whole, y) {
      assert GraftedHere(base, v, w, y);
    }
    SlotTidy(whole, v, i, owners);
  }

  lemma {:induction false} KidOwner(whole: Node, n: Node, x: Id)
    requires UniqueIds(whole) && Inside(whole, n) && x in Ids(KidsOf(n))
    ensures x in OwnersOf(whole) && OwnersOf(whole)[x] == Owner.Kid(n.id)
  {
    var r :| ValidPath(whole, r) && NodeAt(whole, r) == n;
    var i := KidAt(n, Kid(n, x));
    SlotOwner(whole, r, i);
  }

  // The whole trees stand behind one clean node.
  ghost predicate Behind(
    c: Context, base: Node, a: Node, b: Node, wholeA: Node, wholeB: Node, owners: Owners)
  {
    && CleanAt(c, base, a, b) && UniqueIds(wholeA) && UniqueIds(wholeB)
    && Inside(wholeA, a) && Inside(wholeB, b) && Claims(base, a, b, wholeA, wholeB, owners)
  }

  lemma {:induction false} BehindKid(
    c: Context, base: Node, a: Node, b: Node, wholeA: Node, wholeB: Node, owners: Owners, cid: Id)
    requires Behind(c, base, a, b, wholeA, wholeB, owners) && Matched(base, a, b, cid)
    ensures Behind(c, Kid(base, cid), Kid(a, cid), Kid(b, cid), wholeA, wholeB, owners)
  {
    CleanBelow(c, base, a, b, cid);
    InsideKid(wholeA, a, Kid(a, cid));
    InsideKid(wholeB, b, Kid(b, cid));
    ClaimsBelow(base, a, b, wholeA, wholeB, owners, cid);
  }

  lemma {:induction false} CleanTidy(
    c: Context, base: Node, a: Node, b: Node, wholeA: Node, wholeB: Node, owners: Owners)
    requires Behind(c, base, a, b, wholeA, wholeB, owners)
    ensures Tidy(Merge3(Agnostic, c, base, Some(a), Some(b)).0, {}, owners)
    decreases Size(base), 1, 0
  {
    var m := Merge3(Agnostic, c, base, Some(a), Some(b)).0;
    OwnTidy(c, base, a, b, wholeA, wholeB, owners);
    if IsLayout(m) {
      CleanParts(c, base, a, b);
      ListTidy(c, base, a, b, wholeA, wholeB, owners);
    }
    TidyFrom(m, {}, owners);
  }

  // The placeholders, and the arms when there is no list.
  lemma {:induction false} OwnTidy(
    c: Context, base: Node, a: Node, b: Node, wholeA: Node, wholeB: Node, owners: Owners)
    requires Behind(c, base, a, b, wholeA, wholeB, owners)
    ensures var m := Merge3(Agnostic, c, base, Some(a), Some(b)).0;
      && Owned(StateNodes(m.state), {}, owners, Placeholder(m.id))
      && (forall k | 0 <= k < |StateNodes(m.state)| :: Tidy(StateNodes(m.state)[k], {}, owners))
      && (!IsLayout(m) ==> Owned(m.kind.kids, {}, owners, Owner.Kid(m.id)))
      && (!IsLayout(m) ==> forall k | 0 <= k < |m.kind.kids| :: Tidy(m.kind.kids[k], {}, owners))
  {
    var m := Merge3(Agnostic, c, base, Some(a), Some(b)).0;
    CleanParts(c, base, a, b);
    CleanKind(c, base, a, b);
    if Takes(base.state, a.state, b.state) {
      StateTidy(base, a, b, wholeA, owners);
    } else {
      StateTidy(base, b, a, wholeB, owners);
    }
    if !IsLayout(m) {
      if Takes(Childless(base.kind), Childless(a.kind), Childless(b.kind)) {
        ArmsTidy(base, a, b, wholeA, owners);
      } else {
        ArmsTidy(base, b, a, wholeB, owners);
      }
    }
  }

  lemma {:induction false} ListTidy(
    c: Context, base: Node, a: Node, b: Node, wholeA: Node, wholeB: Node, owners: Owners)
    requires Behind(c, base, a, b, wholeA, wholeB, owners)
    requires IsLayout(Merge3(Agnostic, c, base, Some(a), Some(b)).0)
    ensures var kids := MergedKids(c, base, a, b);
      && Owned(kids, {}, owners, Owner.Kid(base.id))
      && forall k | 0 <= k < |kids| :: Tidy(kids[k], {}, owners)
    decreases Size(base), 0, 1
  {
    var kids, order := MergedKids(c, base, a, b), Order(base, a, b);
    CleanList(c, base, a, b);
    forall j | 0 <= j < |order|
      ensures |kids| == |order| && kids[j].id == order[j] && Tidy(kids[j], {}, owners)
      ensures order[j] in owners && owners[order[j]] == Owner.Kid(base.id)
    {
      CleanKid(c, base, a, b, order, j);
      OneNode(c, base, a, b, order[j]);
      ListKept(c, base, a, b);
      ListedTidy(c, base, a, b, wholeA, wholeB, owners, order[j]);
      assert kids[j] in [kids[j]];
    }
    ListOwned(kids, order, owners, Owner.Kid(base.id));
  }

  lemma {:induction false} ListOwned(kids: seq<Node>, order: seq<Id>, owners: Owners, owner: Owner)
    requires NoRepeat(order) && (order != [] ==> |kids| == |order|) && (order == [] ==> kids == [])
    requires forall j | 0 <= j < |order| ::
      |kids| == |order| && kids[j].id == order[j] && order[j] in owners && owners[order[j]] == owner
    ensures Owned(kids, {}, owners, owner)
  {
  }

  // One child of the merged list.
  lemma {:induction false} ListedTidy(
    c: Context, base: Node, a: Node, b: Node, wholeA: Node, wholeB: Node, owners: Owners, x: Id)
    requires Behind(c, base, a, b, wholeA, wholeB, owners) && !Drops(Clean, base, a, b)
    requires Survives(x in Ids(KidsOf(base)), x in Ids(KidsOf(a)), x in Ids(KidsOf(b)))
    requires MergeKid(Agnostic, c, x, base, KidsOf(a), KidsOf(b)).1 == []
    ensures forall k | k in MergeKid(Agnostic, c, x, base, KidsOf(a), KidsOf(b)).0 :: Tidy(k, {}, owners)
    ensures x in owners && owners[x] == Owner.Kid(base.id)
    decreases Size(base), 0, 0
  {
    KidIs(c, base, a, b, x);
    if x in Ids(KidsOf(base)) {
      BehindKid(c, base, a, b, wholeA, wholeB, owners, x);
      CleanTidy(c, Kid(base, x), Kid(a, x), Kid(b, x), wholeA, wholeB, owners);
      assert VisitedVia(base, a, b, x, x);
      KidOwner(wholeA, a, x);
    } else if x in Ids(KidsOf(a)) {
      NewKidTidy(base, a, b, wholeA, owners, x);
    } else {
      DropsSwap(base, a, b);
      NewKidTidy(base, b, a, wholeB, owners, x);
    }
  }

  // -- The exact condition ---------------------------------------------------

  // Both branches bring the id along, from different places.
  ghost predicate BroughtTwice(base: Node, a: Node, b: Node, x: Id) {
    && Grafted(base, a, b, x) && Grafted(base, b, a, x)
    && x in OwnersOf(a) && x in OwnersOf(b) && OwnersOf(a)[x] != OwnersOf(b)[x]
  }

  // A clean merge of unique trees repeats an id exactly when some id stands in a part the merge
  // takes over from one branch, and elsewhere in a part it takes over from the other.
  lemma {:induction false} CleanMergeRepeats(before: (Node, Node) -> bool, base: Node, a: Node, b: Node)
    requires base.id == a.id == b.id && UniqueIds(base) && UniqueIds(a) && UniqueIds(b)
    requires Merge3Way(before, base, a, b).Merged?
    ensures UniqueIds(Merge3Way(before, base, a, b).tree) <==> forall x :: !BroughtTwice(base, a, b, x)
  {
    var c := ContextOf(base, a, b, before);
    var m := Merge3Way(before, base, a, b).tree;
    NoneOf([], [], DetectMoves(Agnostic, base, a, b), Merge3(Agnostic, c, base, Some(a), Some(b)).1);
    assert ValidPath(a, []) && NodeAt(a, []) == a && ValidPath(b, []) && NodeAt(b, []) == b;
    if x :| BroughtTwice(base, a, b, x) {
      GraftHangs(c, base, a, b, a, b, a, x);
      GraftHangs(c, base, a, b, b, a, b, x);
      HangsTwice(m, x, OwnersOf(a)[x], OwnersOf(b)[x]);
    } else {
      AllHang(c, base, a, b);
    }
  }

  lemma {:induction false} HangsTwice(m: Node, x: Id, owner: Owner, other: Owner)
    requires HangsAs(m, x, owner) && HangsAs(m, x, other) && owner != other
    ensures !UniqueIds(m)
  {
    var p :| ValidPath(m, p) && p != [] && NodeAt(m, p).id == x && OwnerIn(m, p) == owner;
    var q :| ValidPath(m, q) && q != [] && NodeAt(m, q).id == x && OwnerIn(m, q) == other;
    PathsOcc(m, p, q);
  }

  lemma {:induction false} AllHang(c: Context, base: Node, a: Node, b: Node)
    requires CleanAt(c, base, a, b) && Inside(a, a) && Inside(b, b)
    requires forall x :: !BroughtTwice(base, a, b, x)
    ensures UniqueIds(Merge3(Agnostic, c, base, Some(a), Some(b)).0)
  {
    var m := Merge3(Agnostic, c, base, Some(a), Some(b)).0;
    var owners := JoinedOwners(base, a, b);
    JoinedClaims(base, a, b);
    CleanTidy(c, base, a, b, a, b, owners);
    assert Visited(base, a, b, base.id);
    UniqueOwner(a, []);
    Settled(m, {}, owners);
  }

  ghost function JoinedOwners(base: Node, a: Node, b: Node): Owners {
    map x | x in OwnersOf(a).Keys + OwnersOf(b).Keys ::
      if x in OwnersOf(a) && (x !in OwnersOf(b) || Visited(base, a, b, x) || Grafted(base, a, b, x))
      then OwnersOf(a)[x] else OwnersOf(b)[x]
  }

  lemma {:induction false} OwnerKnown(n: Node, x: Id)
    requires Occ(x, n) >= 1
    ensures x in OwnersOf(n)
  {
    OccIds(x, n);
  }

  lemma {:induction false} JoinedClaims(base: Node, a: Node, b: Node)
    requires base.id == a.id == b.id && UniqueIds(a) && UniqueIds(b)
    requires forall x :: !BroughtTwice(base, a, b, x)
    ensures Claims(base, a, b, a, b, JoinedOwners(base, a, b))
  {
    var owners := JoinedOwners(base, a, b);
    forall x | Visited(base, a, b, x) ensures Agreed(owners, a, x) {
      VisitedOccurs(base, a, b, x);
      OwnerKnown(a, x);
    }
    forall x | Grafted(base, a, b, x) ensures Agreed(owners, a, x) {
      GraftedOccurs(base, a, b, x);
      OwnerKnown(a, x);
    }
    forall x | Grafted(base, b, a, x) ensures Agreed(owners, b, x) {
      GraftedOccurs(base, b, a, x);
      OwnerKnown(b, x);
      VisitedSwap(base, a, b, x);
      if Visited(base, b, a, x) {
        NotBoth(base, b, a, x);
      }
      assert !BroughtTwice(base, a, b, x);
    }
  }
}
