// A merge of trees that agree on where each id lives repeats no id.
module MergeUnique {
  import opened Wrappers
  import opened Tree
  import opened Ordinal
  import opened Merge
  import opened ApplySafety

  ghost predicate NoRepeat(s: seq<Id>) {
    forall i, j | 0 <= i < j < |s| :: s[i] != s[j]
  }

  lemma {:induction false} ExceptIs(ids: seq<Id>, drop: set<Id>)
    ensures forall x :: x in Except(ids, drop) <==> x in ids && x !in drop
  {
    if ids != [] {
      ExceptIs(ids[1..], drop);
      assert ids == [ids[0]] + ids[1..];
    }
  }

  lemma {:induction false} SortedNoRepeat(s: seq<Id>)
    requires Sorted(s)
    ensures NoRepeat(s)
  {
    forall i, j | 0 <= i < j < |s| ensures s[i] != s[j] {
      Trichotomy(s[i], s[j]);
    }
  }

  lemma {:induction false} JoinNoRepeat(s: seq<Id>, t: seq<Id>)
    requires NoRepeat(s) && NoRepeat(t) && forall x | x in t :: x !in s
    ensures NoRepeat(s + t)
  {
    forall i, j | 0 <= i < j < |s + t| ensures (s + t)[i] != (s + t)[j] {
      if i < |s| <= j {
        assert t[j - |s|] in t && s[i] in s;
      }
    }
  }

  lemma {:induction false} OrderNoRepeat(res: Resolution, base: seq<Id>, a: seq<Id>, b: seq<Id>)
    requires NoRepeat(base) && NoRepeat(a) && NoRepeat(b)
    ensures NoRepeat(MergedOrder(res, base, a, b))
    ensures forall x | x in MergedOrder(res, base, a, b) :: x in base || x in a || x in b
  {
    var aNew, bNew := Except(a, ToSet(base)), Except(b, ToSet(base));
    SortedUnionIs(aNew, bNew);
    SortedNoRepeat(SortedUnion(aNew, bNew));
    ExceptIs(a, ToSet(base));
    ExceptIs(b, ToSet(base));
    JoinNoRepeat(base, SortedUnion(aNew, bNew));
  }

  // A node whose every id lives where `owners` says.
  ghost predicate Placed(n: Node, owners: Owners) {
    Tidy(n, {}, owners)
  }

  lemma {:induction false} PlacedKids(n: Node, owners: Owners)
    requires Placed(n, owners)
    ensures Owned(KidsOf(n), {}, owners, Kid(n.id)) && NoRepeat(Ids(KidsOf(n)))
    ensures forall c | c in KidsOf(n) :: Placed(c, owners)
  {
    TidyParts(n, {}, owners);
    var kids := KidsOf(n);
    forall i, j | 0 <= i < j < |Ids(kids)| ensures Ids(kids)[i] != Ids(kids)[j] {
      assert kids[i].id != kids[j].id;
    }
  }

  ghost predicate PlacedLike(o: Option<Node>, id: Id, owners: Owners) {
    o.Some? ==> o.value.id == id && Placed(o.value, owners)
  }

  ghost predicate AllPlaced(s: seq<Node>, owners: Owners) {
    forall c | c in s :: Placed(c, owners)
  }

  lemma {:induction false} MergePlaced(
    res: Resolution, c: Context, base: Node, aOpt: Option<Node>, bOpt: Option<Node>, owners: Owners)
    requires Placed(base, owners) && PlacedLike(aOpt, base.id, owners) && PlacedLike(bOpt, base.id, owners)
    ensures Placed(Merge3(res, c, base, aOpt, bOpt).0, owners)
    decreases Size(base), 1, 0
  {
    var a, b := OrBase(aOpt, base), OrBase(bOpt, base);
    var aKids, bKids := KidsOf(a), KidsOf(b);
    var order := MergedOrder(res, Ids(KidsOf(base)), Ids(aKids), Ids(bKids));
    PlacedKids(base, owners);
    PlacedKids(a, owners);
    PlacedKids(b, owners);
    OrderNoRepeat(res, Ids(KidsOf(base)), Ids(aKids), Ids(bKids));
    KidsPlaced(res, c, order, base, aKids, bKids, owners);
    var kids := MergeKids(res, c, order, base, aKids, bKids).0;
    KidsOwned(kids, order, base, a, b, owners);
    NodePlaced(res, base, a, b, kids, owners);
  }

  lemma {:induction false} JoinPlaced(head: seq<Node>, rest: seq<Node>, x: Id, order: seq<Id>, owners: Owners)
    requires AllPlaced(head, owners) && AllPlaced(rest, owners) && Ids(head) == [x] && Ids(rest) == order
    ensures AllPlaced(head + rest, owners) && Ids(head + rest) == [x] + order
  {
    assert Ids(head + rest) == Ids(head) + Ids(rest);
  }

  lemma {:induction false} KidsPlaced(
    res: Resolution, c: Context, order: seq<Id>, base: Node, a: seq<Node>, b: seq<Node>, owners: Owners)
    requires Placed(base, owners) && AllPlaced(a, owners) && AllPlaced(b, owners)
    requires forall x | x in order :: x in Ids(KidsOf(base)) || x in Ids(a) || x in Ids(b)
    ensures AllPlaced(MergeKids(res, c, order, base, a, b).0, owners)
    ensures Ids(MergeKids(res, c, order, base, a, b).0) == order
    decreases Size(base), 0, |order|
  {
    if order != [] {
      KidPlaced(res, c, order[0], base, a, b, owners);
      KidsPlaced(res, c, order[1..], base, a, b, owners);
      JoinPlaced(
        MergeKid(res, c, order[0], base, a, b).0, MergeKids(res, c, order[1..], base, a, b).0,
        order[0], order[1..], owners);
      assert order == [order[0]] + order[1..];
    }
  }

  lemma {:induction false} KidPlaced(
    res: Resolution, c: Context, x: Id, base: Node, a: seq<Node>, b: seq<Node>, owners: Owners)
    requires Placed(base, owners) && AllPlaced(a, owners) && AllPlaced(b, owners)
    requires x in Ids(KidsOf(base)) || x in Ids(a) || x in Ids(b)
    ensures AllPlaced(MergeKid(res, c, x, base, a, b).0, owners)
    ensures Ids(MergeKid(res, c, x, base, a, b).0) == [x]
    decreases Size(base), 0, 0
  {
    PlacedKids(base, owners);
    var inBase := ById(KidsOf(base), x);
    if inBase.Some? {
      KidSmaller(base, inBase.value);
      MergePlaced(res, c, inBase.value, ById(a, x), ById(b, x), owners);
    }
  }

  lemma {:induction false} KidsOwned(kids: seq<Node>, order: seq<Id>, base: Node, a: Node, b: Node, owners: Owners)
    requires Placed(base, owners) && Placed(a, owners) && Placed(b, owners) && a.id == b.id == base.id
    requires Ids(kids) == order && NoRepeat(order)
    requires forall x | x in order :: x in Ids(KidsOf(base)) || x in Ids(KidsOf(a)) || x in Ids(KidsOf(b))
    ensures Owned(kids, {}, owners, Kid(base.id))
  {
    forall i | 0 <= i < |kids| ensures kids[i].id in owners && owners[kids[i].id] == Kid(base.id) {
      assert order[i] == kids[i].id;
      OwnerOf(base, order[i], owners);
      OwnerOf(a, order[i], owners);
      OwnerOf(b, order[i], owners);
    }
    forall i, j | 0 <= i < j < |kids| ensures kids[i].id != kids[j].id {
      assert order[i] != order[j];
    }
  }

  lemma {:induction false} OwnerOf(n: Node, x: Id, owners: Owners)
    requires Placed(n, owners)
    ensures x in Ids(KidsOf(n)) ==> x in owners && owners[x] == Kid(n.id)
  {
    PlacedKids(n, owners);
    if x in Ids(KidsOf(n)) {
      var i :| 0 <= i < |KidsOf(n)| && Ids(KidsOf(n))[i] == x;
      assert KidsOf(n)[i].id == x;
    }
  }

  lemma {:induction false} StatePlaced(res: Resolution, base: Node, a: Node, b: Node, kids: seq<Node>, owners: Owners)
    requires Placed(base, owners) && Placed(a, owners) && Placed(b, owners) && a.id == b.id == base.id
    ensures var m := MergedNode(res, base, a, b, kids);
      && Owned(StateNodes(m.state), {}, owners, Placeholder(m.id))
      && forall i | 0 <= i < |StateNodes(m.state)| :: Tidy(StateNodes(m.state)[i], {}, owners)
  {
    TidyParts(base, {}, owners);
    TidyParts(a, {}, owners);
    TidyParts(b, {}, owners);
    var m := MergedNode(res, base, a, b, kids);
    assert m.state == base.state || m.state == a.state || m.state == b.state;
  }

  lemma {:induction false} OwnKidsPlaced(res: Resolution, base: Node, a: Node, b: Node, kids: seq<Node>, owners: Owners)
    requires Placed(base, owners) && Placed(a, owners) && Placed(b, owners) && a.id == b.id == base.id
    requires AllPlaced(kids, owners) && Owned(kids, {}, owners, Kid(base.id))
    ensures var m := MergedNode(res, base, a, b, kids);
      && Owned(m.kind.kids, {}, owners, Kid(m.id))
      && forall i | 0 <= i < |m.kind.kids| :: Tidy(m.kind.kids[i], {}, owners)
  {
    var m := MergedNode(res, base, a, b, kids);
    if IsLayout(m) {
      assert m.kind.kids == kids;
      forall i | 0 <= i < |kids| ensures Tidy(m.kind.kids[i], {}, owners) {
        assert kids[i] in kids;
      }
    } else {
      TidyParts(base, {}, owners);
      TidyParts(a, {}, owners);
      TidyParts(b, {}, owners);
    }
  }

  lemma {:induction false} NodePlaced(res: Resolution, base: Node, a: Node, b: Node, kids: seq<Node>, owners: Owners)
    requires Placed(base, owners) && Placed(a, owners) && Placed(b, owners) && a.id == b.id == base.id
    requires AllPlaced(kids, owners) && Owned(kids, {}, owners, Kid(base.id))
    ensures Placed(MergedNode(res, base, a, b, kids), owners)
  {
    var m := MergedNode(res, base, a, b, kids);
    StatePlaced(res, base, a, b, kids, owners);
    OwnKidsPlaced(res, base, a, b, kids, owners);
    TidyFrom(m, {}, owners);
  }

  // Every id of the three trees has one owner, in whichever of them hold it.
  ghost predicate Agree(base: Node, a: Node, b: Node, owners: Owners) {
    TidyTree(base, {}, owners) && TidyTree(a, {}, owners) && TidyTree(b, {}, owners)
  }

  // No branch re-parents a base node, and an id new on both branches is put under the
  // same parent: then the merged tree repeats no id, refused or not.
  lemma {:induction false} MergeKeepsUnique(
      res: Resolution, before: (Node, Node) -> bool, base: Node, a: Node, b: Node, owners: Owners)
    requires a.id == b.id == base.id && Agree(base, a, b, owners)
    ensures UniqueIds(MergeAll(res, before, base, a, b).0)
  {
    var c := ContextOf(base, a, b, before);
    MergePlaced(res, c, base, Some(a), Some(b), owners);
    Settled(MergeAll(res, before, base, a, b).0, {}, owners);
  }

  // On unique trees, agreeing on owners is agreeing id by id.
  lemma {:induction false} AgreeByOwner(base: Node, a: Node, b: Node) returns (owners: Owners)
    requires UniqueIds(base) && UniqueIds(a) && UniqueIds(b)
    requires forall x | x in OwnersOf(base) && x in OwnersOf(a) :: OwnersOf(a)[x] == OwnersOf(base)[x]
    requires forall x | x in OwnersOf(base) && x in OwnersOf(b) :: OwnersOf(b)[x] == OwnersOf(base)[x]
    requires forall x | x in OwnersOf(a) && x in OwnersOf(b) :: OwnersOf(a)[x] == OwnersOf(b)[x]
    ensures Agree(base, a, b, owners)
  {
    owners := OwnersOf(base) + OwnersOf(a) + OwnersOf(b);
    WidenTree(base, owners);
    WidenTree(a, owners);
    WidenTree(b, owners);
  }

  lemma {:induction false} WidenTree(n: Node, wider: Owners)
    requires UniqueIds(n) && forall x | x in OwnersOf(n) :: x in wider && wider[x] == OwnersOf(n)[x]
    ensures TidyTree(n, {}, wider)
  {
    UniqueTidy(n, {});
    Widen(n, OwnersOf(n), wider);
  }

  lemma {:induction false} Widen(n: Node, owners: Owners, wider: Owners)
    requires Placed(n, owners) && forall x | x in owners :: x in wider && wider[x] == owners[x]
    ensures Placed(n, wider)
    decreases Size(n)
  {
    SlotSizes(n);
    forall i | 0 <= i < |Slots(n)| ensures Placed(Slots(n)[i], wider) {
      Widen(Slots(n)[i], owners, wider);
    }
  }
}
