// What a merge returns when the branches agree, when one branch is idle, and what
// does not depend on who wrote the branches.
module MergeLaws {
  import opened Wrappers
  import opened Tree
  import Ops
  import opened Ordinal
  import opened Merge
  import opened ApplySafety

  // -- Preconditions ---------------------------------------------------------

  // The stored form of a style: no member at its default, never an empty record.
  ghost predicate StoredStyle(n: Node) {
    n.style.Some? ==>
      && n.style.value != map[]
      && forall m | m in n.style.value :: n.style.value[m] != Ops.IdentityOf(m) && n.style.value[m] != ""
  }

  ghost predicate StoredStyles(n: Node) {
    forall p | ValidPath(n, p) :: StoredStyle(NodeAt(n, p))
  }

  lemma {:induction false} KidAt(n: Node, c: Node) returns (i: nat)
    requires c in KidsOf(n)
    ensures i < |Slots(n)| && Slots(n)[i] == c && i < |KidsOf(n)| && KidsOf(n)[i] == c
  {
    i :| 0 <= i < |KidsOf(n)| && KidsOf(n)[i] == c;
    assert Slots(n)[i] == n.kind.kids[i];
  }

  lemma {:induction false} BelowSlot(n: Node, i: nat, p: Path)
    requires i < |Slots(n)|
    ensures ValidPath(n, [i] + p) <==> ValidPath(Slots(n)[i], p)
    ensures ValidPath(n, [i] + p) ==> NodeAt(n, [i] + p) == NodeAt(Slots(n)[i], p)
  {
    assert ([i] + p)[1..] == p;
  }

  lemma {:induction false} StoredKid(n: Node, c: Node)
    requires StoredStyles(n) && c in KidsOf(n)
    ensures StoredStyles(c)
  {
    var i := KidAt(n, c);
    forall p | ValidPath(c, p) ensures StoredStyle(NodeAt(c, p)) {
      BelowSlot(n, i, p);
    }
  }

  lemma {:induction false} UniqueKids(n: Node)
    requires UniqueIds(n)
    ensures DistinctIds(KidsOf(n))
    ensures forall c | c in KidsOf(n) :: UniqueIds(c)
  {
    DistinctKids(n, []);
    forall c | c in KidsOf(n) ensures UniqueIds(c) {
      var i := KidAt(n, c);
      BelowSlot(n, i, []);
      UniqueAt(n, [i] + []);
    }
  }

  lemma {:induction false} ByIdDistinct(s: seq<Node>, i: nat)
    requires DistinctIds(s) && i < |s|
    ensures ById(s, s[i].id) == Some(s[i])
  {
    assert Ids(s)[i] == s[i].id;
    var r := ById(s, s[i].id).value;
    var j :| 0 <= j < |s| && s[j] == r;
  }

  // -- One side speaks -------------------------------------------------------

  // `b` says what `a` says, or nothing: in both cases the merge must give `a`.
  ghost predicate Follows(base: Node, a: Node, b: Node) {
    b == a || b == base
  }

  lemma {:induction false} FollowedMember(res: Resolution, base: Node, a: Node, b: Node, m: Member)
    requires Follows(base, a, b)
    ensures StylePick(res, base, a, b, m) == StyleField(a, m) && StyleCell(res, base, a, b, m) == []
  {
  }

  lemma {:induction false} StoredField(a: Node, m: Member)
    requires StoredStyle(a)
    ensures Stored(m, StyleField(a, m)) <==> m in Ops.StyleMembers(a)
    ensures m in Ops.StyleMembers(a) ==> StyleField(a, m) == Some(Ops.StyleMembers(a)[m])
  {
  }

  lemma {:induction false} FollowedStyle(res: Resolution, base: Node, a: Node, b: Node)
    requires Follows(base, a, b) && StoredStyle(a)
    ensures MergedStyle(res, base, a, b) == a.style
    ensures StyleCells(res, base, a, b, StyleOrder) == []
  {
    var merged, members := MergedMembers(res, base, a, b), Ops.StyleMembers(a);
    forall m: Member
      ensures StyleCell(res, base, a, b, m) == []
      ensures m in merged <==> m in members
      ensures m in merged ==> merged[m] == members[m]
    {
      FollowedMember(res, base, a, b, m);
      StoredField(a, m);
    }
    NoStyleCells(res, base, a, b, StyleOrder);
    assert merged == members;
  }

  lemma {:induction false} NoStyleCells(res: Resolution, base: Node, a: Node, b: Node, members: seq<Member>)
    requires forall m: Member :: StyleCell(res, base, a, b, m) == []
    ensures StyleCells(res, base, a, b, members) == []
  {
    if members != [] {
      NoStyleCells(res, base, a, b, members[1..]);
    }
  }

  lemma {:induction false} FollowedNode(res: Resolution, base: Node, a: Node, b: Node, kids: seq<Node>)
    requires Follows(base, a, b) && StoredStyle(a) && a.id == base.id
    ensures MergedNode(res, base, a, b, kids) == WithNewKids(a, kids).(extras := base.extras)
    ensures OwnCells(res, base, a, b) == []
  {
    FollowedStyle(res, base, a, b);
  }

  function WithNewKids(n: Node, kids: seq<Node>): Node {
    if IsLayout(n) then n.(kind := n.kind.(kids := kids)) else n
  }

  // A branch with the base's extras on every node the merge matches with a base node: the
  // roots, and below them the children that keep their parent.
  function Rebased(base: Node, a: Node): Node
    decreases Size(base), 2
  {
    WithNewKids(a, RebasedKids(base, KidsOf(a))).(extras := base.extras)
  }

  function RebasedKids(base: Node, kids: seq<Node>): (r: seq<Node>)
    ensures |r| == |kids|
    decreases Size(base), 1
  {
    seq(|kids|, i requires 0 <= i < |kids| => RebasedKid(base, kids[i]))
  }

  function RebasedKid(base: Node, c: Node): Node
    decreases Size(base), 0
  {
    match ById(KidsOf(base), c.id)
    case None => c
    case Some(bc) => KidSmaller(base, bc); Rebased(bc, c)
  }

  // The matched nodes have the base's extras already.
  ghost predicate KeepsExtras(base: Node, a: Node)
    decreases Size(base), 1
  {
    a.extras == base.extras && forall c | c in KidsOf(a) :: KidKeepsExtras(base, c)
  }

  ghost predicate KidKeepsExtras(base: Node, c: Node)
    decreases Size(base), 0
  {
    var bc := ById(KidsOf(base), c.id);
    bc.Some? ==> (KidSmaller(base, bc.value); KeepsExtras(bc.value, c))
  }

  lemma {:induction false} RebasedSame(base: Node, a: Node)
    ensures Rebased(base, a) == a <==> KeepsExtras(base, a)
    decreases Size(base), 1
  {
    var kids, now := KidsOf(a), RebasedKids(base, KidsOf(a));
    forall i | 0 <= i < |kids| ensures now[i] == kids[i] <==> KidKeepsExtras(base, kids[i]) {
      RebasedKidSame(base, kids[i]);
    }
    if forall c | c in kids :: KidKeepsExtras(base, c) {
      assert now == kids;
    } else {
      var c :| c in kids && !KidKeepsExtras(base, c);
      var i := KidAt(a, c);
      assert now[i] != kids[i];
    }
  }

  lemma {:induction false} RebasedKidSame(base: Node, c: Node)
    ensures RebasedKid(base, c) == c <==> KidKeepsExtras(base, c)
    decreases Size(base), 0
  {
    var bc := ById(KidsOf(base), c.id);
    if bc.Some? {
      KidSmaller(base, bc.value);
      RebasedSame(bc.value, c);
    }
  }

  // Merging a branch with itself, or with an idle branch, gives the branch, rebased.
  lemma {:induction false} Followed(res: Resolution, c: Context, base: Node, a: Node, b: Node)
    requires Follows(base, a, b) && UniqueIds(a) && StoredStyles(a) && a.id == base.id
    ensures Merge3(res, c, base, Some(a), Some(b)) == (Rebased(base, a), [])
    decreases Size(base), 1, 0
  {
    assert ValidPath(a, []) && NodeAt(a, []) == a;
    FollowedNode(res, base, a, b, RebasedKids(base, KidsOf(a)));
    UniqueKids(a);
    var aIds, baseIds := Ids(KidsOf(a)), Ids(KidsOf(base));
    assert MergedOrder(res, baseIds, aIds, Ids(KidsOf(b))) == aIds;
    assert !OrderClash(baseIds, aIds, Ids(KidsOf(b)));
    NoDeletes(res, c, baseIds, base, a, b);
    FollowedKids(res, c, base, a, b, 0);
    assert RebasedKids(base, KidsOf(a))[0..] == RebasedKids(base, KidsOf(a)) && aIds[0..] == aIds;
  }

  lemma {:induction false} NoDeletes(res: Resolution, c: Context, ids: seq<Id>, base: Node, a: Node, b: Node)
    requires Follows(base, a, b) && forall x | x in ids :: x in Ids(KidsOf(base))
    ensures DeleteCells(res, c, ids, KidsOf(base), KidsOf(a), KidsOf(b)) == []
  {
    if ids != [] {
      NoDeletes(res, c, ids[1..], base, a, b);
    }
  }

  lemma {:induction false} MergeKidsStep(
    res: Resolution, c: Context, x: Id, rest: seq<Id>, base: Node, a: seq<Node>, b: seq<Node>)
    ensures var head, tail := MergeKid(res, c, x, base, a, b), MergeKids(res, c, rest, base, a, b);
            MergeKids(res, c, [x] + rest, base, a, b) == (head.0 + tail.0, head.1 + tail.1)
  {
    assert ([x] + rest)[1..] == rest;
  }

  lemma {:induction false} FollowedKids(res: Resolution, c: Context, base: Node, a: Node, b: Node, i: nat)
    requires Follows(base, a, b) && UniqueIds(a) && StoredStyles(a)
    requires DistinctIds(KidsOf(a)) && i <= |KidsOf(a)|
    ensures MergeKids(res, c, Ids(KidsOf(a))[i..], base, KidsOf(a), KidsOf(b))
         == (RebasedKids(base, KidsOf(a))[i..], [])
    decreases Size(base), 0, |KidsOf(a)| - i
  {
    var kids, ids := KidsOf(a), Ids(KidsOf(a));
    if i < |kids| {
      FollowedKids(res, c, base, a, b, i + 1);
      FollowedKid(res, c, base, a, b, i);
      MergeKidsStep(res, c, kids[i].id, ids[i + 1..], base, kids, KidsOf(b));
      KidsFrom(kids, RebasedKids(base, kids), i);
      assert MergeKids(res, c, ids[i..], base, kids, KidsOf(b)).1 == [];
    } else {
      assert RebasedKids(base, kids)[i..] == [] && ids[i..] == [];
    }
  }

  lemma {:induction false} KidsFrom(kids: seq<Node>, now: seq<Node>, i: nat)
    requires i < |kids| == |now|
    ensures Ids(kids)[i..] == [kids[i].id] + Ids(kids)[i + 1..]
    ensures now[i..] == [now[i]] + now[i + 1..]
  {
  }

  lemma {:induction false} FollowedKid(res: Resolution, c: Context, base: Node, a: Node, b: Node, i: nat)
    requires Follows(base, a, b) && UniqueIds(a) && StoredStyles(a)
    requires DistinctIds(KidsOf(a)) && i < |KidsOf(a)|
    ensures MergeKid(res, c, KidsOf(a)[i].id, base, KidsOf(a), KidsOf(b)) == ([RebasedKid(base, KidsOf(a)[i])], [])
    decreases Size(base), 0, 0
  {
    var ac := KidsOf(a)[i];
    ByIdDistinct(KidsOf(a), i);
    var inBase := ById(KidsOf(base), ac.id);
    if inBase.Some? {
      KidSmaller(base, inBase.value);
      UniqueKids(a);
      StoredKid(a, ac);
      Followed(res, c, inBase.value, ac, if b == a then ac else inBase.value);
    }
  }

  // -- Moves -----------------------------------------------------------------

  lemma {:induction false} NoMoves(res: Resolution, base: Node, a: Node, b: Node, ids: seq<Id>)
    requires forall x | x in ids :: MoveCells(res, base, a, b, x) == []
    ensures MoveCellsFrom(res, base, a, b, ids) == []
  {
    if ids != [] {
      NoMoves(res, base, a, b, ids[1..]);
    }
  }

  lemma {:induction false} SomeMove(res: Resolution, base: Node, a: Node, b: Node, ids: seq<Id>, x: Id)
    requires x in ids && MoveCells(res, base, a, b, x) != []
    ensures MoveCellsFrom(res, base, a, b, ids) != []
  {
    if x != ids[0] {
      SomeMove(res, base, a, b, ids[1..], x);
    }
  }

  // Whatever a branch did, a merge with itself accepts it, and gives it back exactly when
  // the matched nodes keep the base's extras: an edit to those is dropped.
  lemma {:induction false} Agreement(before: (Node, Node) -> bool, base: Node, a: Node)
    requires UniqueIds(a) && StoredStyles(a) && a.id == base.id
    ensures Merge3Way(before, base, a, a) == Merged(Rebased(base, a), [])
    ensures Merge3Way(before, base, a, a) == Merged(a, []) <==> KeepsExtras(base, a)
  {
    RebasedSame(base, a);
    Followed(Agnostic, ContextOf(base, a, a, before), base, a, a);
    NoMoves(Agnostic, base, a, a, SortedUnion(KidIds(base), []));
    CleanVerdict(before, base, a, a, Rebased(base, a));
  }

  // The verdict is the two passes' cells, and the tree the second one's.
  lemma {:induction false} CleanVerdict(before: (Node, Node) -> bool, base: Node, a: Node, b: Node, m: Node)
    requires Merge3(Agnostic, ContextOf(base, a, b, before), base, Some(a), Some(b)) == (m, [])
    ensures DetectMoves(Agnostic, base, a, b) == [] ==> Merge3Way(before, base, a, b) == Merged(m, [])
    ensures DetectMoves(Agnostic, base, a, b) != [] ==> Merge3Way(before, base, a, b).Refused?
  {
    assert DetectMoves(Agnostic, base, a, b) + [] == DetectMoves(Agnostic, base, a, b);
  }

  // A base node the branch holds under another parent, with other content.
  ghost predicate MovedAndEdited(base: Node, a: Node, x: Id) {
    && x in NodeIndex(base) && x in NodeIndex(a)
    && x in PlacementOf(base, "") && x in PlacementOf(a, "")
    && PlacementOf(a, "")[x] != PlacementOf(base, "")[x] && NodeIndex(a)[x] != NodeIndex(base)[x]
  }

  lemma {:induction false} IdleMoveCells(base: Node, a: Node, x: Id)
    ensures MovedAndEdited(base, a, x) ==>
      x in SortedUnion(KidIds(base), []) && MoveCells(Agnostic, base, a, base, x) != []
    ensures !MovedAndEdited(base, a, x) ==> MoveCells(Agnostic, base, a, base, x) == []
  {
    PlacementIndexed(base, "");
    PlacementIndexed(a, "");
    KidIdsIndexed(base);
    SortedUnionIs(KidIds(base), []);
  }

  // Against an idle branch the merge gives the other branch, unless that branch both
  // relocated a node and edited inside it: then it refuses.
  lemma {:induction false} IdleBranch(before: (Node, Node) -> bool, base: Node, a: Node)
    requires UniqueIds(a) && StoredStyles(a) && a.id == base.id
    ensures (forall x :: !MovedAndEdited(base, a, x)) ==>
      Merge3Way(before, base, a, base) == Merged(Rebased(base, a), [])
    ensures (exists x :: MovedAndEdited(base, a, x)) ==> Merge3Way(before, base, a, base).Refused?
    ensures Merge3Way(before, base, a, base) == Merged(a, []) <==>
      (forall x :: !MovedAndEdited(base, a, x)) && KeepsExtras(base, a)
  {
    RebasedSame(base, a);
    Followed(Agnostic, ContextOf(base, a, base, before), base, a, base);
    IdleMoves(base, a);
    CleanVerdict(before, base, a, base, Rebased(base, a));
  }

  lemma {:induction false} IdleMoves(base: Node, a: Node)
    ensures DetectMoves(Agnostic, base, a, base) == [] <==> forall x :: !MovedAndEdited(base, a, x)
  {
    if x :| MovedAndEdited(base, a, x) {
      IdleMoveCells(base, a, x);
      SomeMove(Agnostic, base, a, base, SortedUnion(KidIds(base), []), x);
    } else {
      forall x ensures MoveCells(Agnostic, base, a, base, x) == [] {
        IdleMoveCells(base, a, x);
      }
      NoMoves(Agnostic, base, a, base, SortedUnion(KidIds(base), []));
    }
  }

  // -- Authorship decides nothing on a clean merge ---------------------------

  lemma {:induction false} CleanNode(res: Resolution, res': Resolution, base: Node, a: Node, b: Node, kids: seq<Node>)
    requires OwnCells(res, base, a, b) == []
    ensures OwnCells(res', base, a, b) == []
    ensures MergedNode(res', base, a, b, kids) == MergedNode(res, base, a, b, kids)
  {
    CleanStyle(res, res', base, a, b, StyleOrder);
    forall m: Member ensures StylePick(res', base, a, b, m) == StylePick(res, base, a, b, m) {
      Ordered(m);
    }
    assert MergedMembers(res', base, a, b) == MergedMembers(res, base, a, b);
  }

  lemma {:induction false} Ordered(m: Member)
    ensures m in StyleOrder
  {
    var k :=
      match m
      case Tone => 0
      case Weight => 1
      case Emphasis => 2
      case Role => 3
      case Voice => 4
      case Direction => 5;
    assert StyleOrder[k] == m;
  }

  lemma {:induction false} CleanStyle(
    res: Resolution, res': Resolution, base: Node, a: Node, b: Node, members: seq<Member>)
    requires StyleCells(res, base, a, b, members) == []
    ensures StyleCells(res', base, a, b, members) == []
    ensures forall m | m in members :: StylePick(res', base, a, b, m) == StylePick(res, base, a, b, m)
  {
    if members != [] {
      CleanStyle(res, res', base, a, b, members[1..]);
      assert StyleCell(res, base, a, b, members[0]) == [];
    }
  }

  lemma {:induction false} CleanDeletes(
    res: Resolution, res': Resolution, c: Context, ids: seq<Id>, base: seq<Node>, a: seq<Node>, b: seq<Node>)
    requires forall x | x in ids :: x in Ids(base)
    requires DeleteCells(res, c, ids, base, a, b) == []
    ensures DeleteCells(res', c, ids, base, a, b) == []
  {
    if ids != [] {
      CleanDeletes(res, res', c, ids[1..], base, a, b);
    }
  }

  // A run that recorded nothing is the same run under any precedence.
  lemma {:induction false} CleanRun(
    res: Resolution, res': Resolution, c: Context, base: Node, aOpt: Option<Node>, bOpt: Option<Node>)
    requires Merge3(res, c, base, aOpt, bOpt).1 == []
    ensures Merge3(res', c, base, aOpt, bOpt) == Merge3(res, c, base, aOpt, bOpt)
    decreases Size(base), 1, 0
  {
    var a, b := OrBase(aOpt, base), OrBase(bOpt, base);
    var baseKids, aKids, bKids := KidsOf(base), KidsOf(a), KidsOf(b);
    var order := MergedOrder(res, Ids(baseKids), Ids(aKids), Ids(bKids));
    NoneOf(
      OwnCells(res, base, a, b), DeleteCells(res, c, Ids(baseKids), baseKids, aKids, bKids),
      OrderCell(res, base.id, Ids(baseKids), Ids(aKids), Ids(bKids)), MergeKids(res, c, order, base, aKids, bKids).1);
    CleanNode(res, res', base, a, b, MergeKids(res, c, order, base, aKids, bKids).0);
    CleanDeletes(res, res', c, Ids(baseKids), baseKids, aKids, bKids);
    CleanKids(res, res', c, order, base, aKids, bKids);
    assert !OrderClash(Ids(baseKids), Ids(aKids), Ids(bKids));
    assert MergedOrder(res', Ids(baseKids), Ids(aKids), Ids(bKids)) == order;
  }

  lemma {:induction false} NoneOf(own: seq<Conflict>, gone: seq<Conflict>, list: seq<Conflict>, kids: seq<Conflict>)
    requires own + gone + list + kids == []
    ensures own == [] && gone == [] && list == [] && kids == []
  {
  }

  lemma {:induction false} CleanKids(
    res: Resolution, res': Resolution, c: Context, order: seq<Id>, base: Node, a: seq<Node>, b: seq<Node>)
    requires MergeKids(res, c, order, base, a, b).1 == []
    ensures MergeKids(res', c, order, base, a, b) == MergeKids(res, c, order, base, a, b)
    decreases Size(base), 0, |order|
  {
    if order != [] {
      assert MergeKid(res, c, order[0], base, a, b).1 == [];
      var inBase := ById(KidsOf(base), order[0]);
      if inBase.Some? {
        KidSmaller(base, inBase.value);
        CleanRun(res, res', c, inBase.value, ById(a, order[0]), ById(b, order[0]));
      }
      CleanKids(res, res', c, order[1..], base, a, b);
    }
  }

  lemma {:induction false} CleanMoves(
    res: Resolution, res': Resolution, base: Node, a: Node, b: Node, ids: seq<Id>)
    requires MoveCellsFrom(res, base, a, b, ids) == []
    ensures MoveCellsFrom(res', base, a, b, ids) == []
  {
    if ids != [] {
      CleanMoves(res, res', base, a, b, ids[1..]);
    }
  }

  lemma {:induction false} CleanAll(
      res: Resolution, res': Resolution, before: (Node, Node) -> bool, base: Node, a: Node, b: Node)
    requires MergeAll(res, before, base, a, b).1 == []
    ensures MergeAll(res', before, base, a, b) == MergeAll(res, before, base, a, b)
  {
    CleanRun(res, res', ContextOf(base, a, b, before), base, Some(a), Some(b));
    CleanMoves(res, res', base, a, b, SortedUnion(KidIds(base), []));
  }

  // The author-agnostic merge accepts exactly when the merge under any given pair of
  // authors has nothing to resolve, and then the trees are the same.
  lemma {:induction false} AuthorIndependence(
    authorA: Author, authorB: Author, before: (Node, Node) -> bool, base: Node, a: Node, b: Node)
    ensures forall tree ::
      Merge3Way(before, base, a, b) == Merged(tree, []) <==>
      Merge3WayWithAuthor(authorA, authorB, before, base, a, b) == Merged(tree, [])
  {
    var res := ResolveAuthor(authorA, authorB);
    if MergeAll(Agnostic, before, base, a, b).1 == [] {
      CleanAll(Agnostic, res, before, base, a, b);
    }
    if MergeAll(res, before, base, a, b).1 == [] {
      CleanAll(res, Agnostic, before, base, a, b);
    }
  }
}
