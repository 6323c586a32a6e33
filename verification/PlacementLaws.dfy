// What placement promises: an op it emits applies, the destination ends in the wanted
// order and nothing else moves, the way back restores the tree, and its refusals are
// the engine's.
module PlacementLaws {
  import opened Wrappers
  import opened Tree
  import opened Ops
  import opened ApplySafety
  import opened Table
  import opened Placements
  import D = DiffRoundTrip

  // -- Sibling orders --------------------------------------------------------

  lemma {:induction false} OthersConcat(s: seq<Id>, t: seq<Id>, x: Id)
    ensures Others(s + t, x) == Others(s, x) + Others(t, x)
  {
    if s == [] {
      assert s + t == t;
    } else {
      assert (s + t)[1..] == s[1..] + t;
      OthersConcat(s[1..], t, x);
    }
  }

  lemma {:induction false} OthersNone(s: seq<Id>, x: Id)
    requires x !in s
    ensures Others(s, x) == s
  {
    if s != [] {
      OthersNone(s[1..], x);
    }
  }

  lemma {:induction false} OthersGone(s: seq<Id>, x: Id)
    ensures x !in Others(s, x)
    ensures forall y | y in Others(s, x) :: y in s
    ensures multiset(Others(s, x)) == multiset(s)[x := 0]
  {
    if s != [] {
      OthersGone(s[1..], x);
      assert s == [s[0]] + s[1..];
    }
  }

  lemma {:induction false} OthersHas(s: seq<Id>, x: Id, y: Id)
    ensures y in Others(s, x) <==> y in s && y != x
  {
    if s != [] {
      OthersHas(s[1..], x, y);
      assert s == [s[0]] + s[1..];
    }
  }

  // An order that holds `x` once, around it.
  lemma {:induction false} OthersAround(s: seq<Id>, i: nat)
    requires i < |s| && s[i] !in s[..i] && s[i] !in s[i + 1..]
    ensures Others(s, s[i]) == s[..i] + s[i + 1..]
  {
    OthersThrough(s[..i], s[i], s[i + 1..]);
    assert s == s[..i] + [s[i]] + s[i + 1..];
  }

  // Where the placement wants `moved`, read off the finished order.
  predicate Sits(order: seq<Id>, moved: Id, placement: Placement, i: nat)
    requires i < |order|
  {
    order[i] == moved &&
    match placement
    case Last => i == |order| - 1
    case First => i == 0
    case Before(anchor) => i + 1 < |order| && order[i + 1] == anchor
    case After(anchor) => i > 0 && order[i - 1] == anchor
    case Unrecognised => false
  }

  // A placement is refused exactly for an unknown kind or an anchor that is not among the
  // other siblings. Otherwise the others keep their order and `moved` sits where asked.
  lemma {:induction false} RepositionMeans(order: seq<Id>, moved: Id, placement: Placement)
    ensures Reposition(order, moved, placement).Err? <==>
      placement.Unrecognised?
      || ((placement.Before? || placement.After?) && (placement.anchor == moved || placement.anchor !in order))
    ensures Reposition(order, moved, placement).Err? ==>
      Reposition(order, moved, placement).error == if placement.Unrecognised? then UnknownPlacement else UnknownAnchor
    ensures Reposition(order, moved, placement).Ok? ==>
      var wanted := Reposition(order, moved, placement).value;
      && Others(wanted, moved) == Others(order, moved)
      && multiset(wanted) == multiset(Others(order, moved)) + multiset{moved}
      && exists i | 0 <= i < |wanted| :: Sits(wanted, moved, placement, i)
  {
    OthersGone(order, moved);
    if placement.Before? || placement.After? {
      OthersHas(order, moved, placement.anchor);
    }
    if Reposition(order, moved, placement).Ok? {
      PlacedMeans(Others(order, moved), moved, placement, Reposition(order, moved, placement).value);
    }
  }

  lemma {:induction false} PlacedMeans(rest: seq<Id>, moved: Id, placement: Placement, wanted: seq<Id>)
    requires moved !in rest && PlacedAs(rest, moved, placement) == Ok(wanted)
    ensures Others(wanted, moved) == rest && multiset(wanted) == multiset(rest) + multiset{moved}
    ensures exists i | 0 <= i < |wanted| :: Sits(wanted, moved, placement, i)
  {
    var i := SeatIn(rest, placement);
    PlacedIn(rest, moved, placement);
    Inserted(rest, moved, i);
    SitsIn(rest, moved, placement);
  }

  // A list with one id taken out, if it is there.
  ghost predicate IsWithout(rest: seq<Id>, siblings: seq<Id>, x: Id) {
    if x !in siblings then rest == siblings else exists k :: IsCutOut(rest, siblings, x, k)
  }

  ghost predicate IsCutOut(rest: seq<Id>, siblings: seq<Id>, x: Id, k: int) {
    0 <= k < |siblings| && siblings[k] == x && rest == siblings[..k] + siblings[k + 1..]
  }

  // The order holds the id where the placement asks, among the others as they were.
  ghost predicate Stands(order: seq<Id>, siblings: seq<Id>, x: Id, placement: Placement) {
    exists i :: StandsAt(order, siblings, x, placement, i)
  }

  ghost predicate StandsAt(order: seq<Id>, siblings: seq<Id>, x: Id, placement: Placement, i: int) {
    0 <= i < |order| && Sits(order, x, placement, i) && IsWithout(order[..i] + order[i + 1..], siblings, x)
  }

  lemma {:induction false} PlacedStands(siblings: seq<Id>, list: seq<Id>, x: Id, placement: Placement)
    requires Others(list, x) == Others(siblings, x) && Reposition(list, x, placement).Ok?
    requires AllDistinct(siblings)
    ensures Stands(Reposition(list, x, placement).value, siblings, x, placement)
  {
    var rest := Others(list, x);
    var i := SeatIn(rest, placement);
    PlacedIn(rest, x, placement);
    SitsIn(rest, x, placement);
    CutBack(rest, x, i);
    OthersIsWithout(siblings, x);
    assert StandsAt(rest[..i] + [x] + rest[i..], siblings, x, placement, i);
  }

  lemma {:induction false} CutBack(rest: seq<Id>, x: Id, i: nat)
    requires i <= |rest|
    ensures var order := rest[..i] + [x] + rest[i..]; i < |order| && order[..i] + order[i + 1..] == rest
  {
    var order := rest[..i] + [x] + rest[i..];
    assert order[..i] == rest[..i] && order[i + 1..] == rest[i..];
  }

  lemma {:induction false} OthersIsWithout(siblings: seq<Id>, x: Id)
    requires AllDistinct(siblings)
    ensures IsWithout(Others(siblings, x), siblings, x)
  {
    if x in siblings {
      var k :| 0 <= k < |siblings| && siblings[k] == x;
      OthersAround(siblings, k);
      assert IsCutOut(Others(siblings, x), siblings, x, k);
    } else {
      OthersNone(siblings, x);
    }
  }

  // The index a placement picks.
  function SeatIn(rest: seq<Id>, placement: Placement): (i: nat)
    ensures i <= |rest|
  {
    match placement
    case Last => |rest|
    case First => 0
    case Before(anchor) => if anchor in rest then IndexOf(rest, anchor).value else 0
    case After(anchor) => if anchor in rest then IndexOf(rest, anchor).value + 1 else 0
    case Unrecognised => 0
  }

  lemma {:induction false} PlacedIn(rest: seq<Id>, moved: Id, placement: Placement)
    requires PlacedAs(rest, moved, placement).Ok?
    ensures var i := SeatIn(rest, placement);
      PlacedAs(rest, moved, placement) == Ok(rest[..i] + [moved] + rest[i..])
  {
    if placement.Last? {
      assert rest[..|rest|] == rest && rest[|rest|..] == [] && rest + [moved] + [] == rest + [moved];
    } else if placement.First? {
      assert rest[..0] == [] && rest[0..] == rest && [] + [moved] + rest == [moved] + rest;
    }
  }

  lemma {:induction false} SitsIn(rest: seq<Id>, moved: Id, placement: Placement)
    requires PlacedAs(rest, moved, placement).Ok?
    ensures var i := SeatIn(rest, placement);
      i < |rest| + 1 && Sits(rest[..i] + [moved] + rest[i..], moved, placement, i)
  {
  }

  lemma {:induction false} Inserted(rest: seq<Id>, moved: Id, i: nat)
    requires i <= |rest| && moved !in rest
    ensures var w := rest[..i] + [moved] + rest[i..];
      Others(w, moved) == rest && multiset(w) == multiset(rest) + multiset{moved}
  {
    OthersThrough(rest[..i], moved, rest[i..]);
    assert rest == rest[..i] + rest[i..];
  }

  lemma {:induction false} OthersThrough(front: seq<Id>, x: Id, back: seq<Id>)
    requires x !in front && x !in back
    ensures Others(front + [x] + back, x) == front + back
  {
    OthersConcat(front + [x], back, x);
    OthersConcat(front, [x], x);
    OthersNone(front, x);
    OthersNone(back, x);
    assert Others([x], x) == [] && front + [] == front;
  }

  // -- One parent's list rewritten -------------------------------------------

  lemma {:induction false} UniqueRow(t: Node, p: Path)
    requires UniqueIds(t) && ValidPath(t, p)
    ensures FindNode(NodeAt(t, p).id, t) == Some(NodeAt(t, p))
    ensures Rows(NodeAt(t, p).id, t) == multiset{RowOf(NodeAt(t, p))}
    ensures Occ(NodeAt(t, p).id, t) == 1
  {
    var x := NodeAt(t, p).id;
    D.PathOfId(t, p);
    RowAt(t, p);
    RowsCount(x, t);
    PathOcc(t, p);
    assert Occ(x, t) <= 1;
    var m := Rows(x, t);
    assert |m - multiset{RowOf(NodeAt(t, p))}| == 0;
    assert m == multiset{RowOf(NodeAt(t, p))} + (m - multiset{RowOf(NodeAt(t, p))});
  }

  lemma {:induction false} RowsBelow(x: Id, n: Node)
    requires x != n.id
    ensures Rows(x, n) == RowsSeq(x, n.kind.kids) + RowsSeq(x, StateNodes(n.state))
  {
    RowsConcat(x, n.kind.kids, StateNodes(n.state));
    assert multiset{} + RowsSeq(x, Slots(n)) == RowsSeq(x, Slots(n));
  }

  lemma {:induction false} KidsRows(t: Node, p: Path, kids: seq<Node>, x: Id)
    requires ValidPath(t, p) && IsLayout(NodeAt(t, p)) && x != NodeAt(t, p).id
    ensures Rows(x, Put(t, p, WithKids(NodeAt(t, p), kids))) + RowsSeq(x, NodeAt(t, p).kind.kids)
         == Rows(x, t) + RowsSeq(x, kids)
  {
    var n := NodeAt(t, p);
    var r := WithKids(n, kids);
    RowsPut(x, t, p, r);
    RowsBelow(x, n);
    RowsBelow(x, r);
    Swap(Rows(x, Put(t, p, r)), Rows(x, t), RowsSeq(x, n.kind.kids), RowsSeq(x, kids), RowsSeq(x, StateNodes(n.state)));
  }

  lemma {:induction false} Swap(
      a: multiset<Row>, b: multiset<Row>, c: multiset<Row>, d: multiset<Row>, e: multiset<Row>)
    requires a + (c + e) == b + (d + e)
    ensures a + c == b + d
  {
    assert (a + (c + e)) - e == a + c;
    assert (b + (d + e)) - e == b + d;
  }

  lemma {:induction false} RowWithKids(n: Node, kids: seq<Node>)
    requires IsLayout(n)
    ensures RowOf(WithKids(n, kids)) == RowOf(n).(kids := Ids(kids))
  {
  }

  // Taking kid `i` out.
  lemma {:induction false} RemoveRows(t: Node, p: Path, i: nat) returns (r: Node)
    requires UniqueIds(t) && ValidPath(t, p) && IsLayout(NodeAt(t, p)) && i < |NodeAt(t, p).kind.kids|
    ensures var n := NodeAt(t, p);
      var kids := n.kind.kids[..i] + n.kind.kids[i + 1..];
      && r == Put(t, p, WithKids(n, kids)) && ApplyRemove(n.kind.kids[i].id, t) == Ok(r)
      && UniqueIds(r) && ValidPath(r, p) && NodeAt(r, p) == WithKids(n, kids)
      && (forall x :: Occ(x, r) + Occ(x, n.kind.kids[i]) == Occ(x, t))
      && (forall x | x != n.id :: Rows(x, r) + Rows(x, n.kind.kids[i]) == Rows(x, t))
  {
    var n := NodeAt(t, p);
    var kids := n.kind.kids[..i] + n.kind.kids[i + 1..];
    var n1;
    r, n1 := D.AfterRemove(t, p, i);
    forall x | x != n.id ensures Rows(x, r) + Rows(x, n.kind.kids[i]) == Rows(x, t) {
      KidsRows(t, p, kids, x);
      RowsSplit(x, n.kind.kids, i);
      RowsConcat(x, n.kind.kids[..i], n.kind.kids[i + 1..]);
      Taken(
        Rows(x, r), Rows(x, t), RowsSeq(x, n.kind.kids[..i]), Rows(x, n.kind.kids[i]),
        RowsSeq(x, n.kind.kids[i + 1..]));
    }
  }

  lemma {:induction false} Taken(
      a: multiset<Row>, b: multiset<Row>, l: multiset<Row>, m: multiset<Row>, r: multiset<Row>)
    requires a + (l + m + r) == b + (l + r)
    ensures a + m == b
  {
    assert a + (l + m + r) == (a + m) + (l + r);
    assert (a + m) + (l + r) - (l + r) == a + m;
    assert b + (l + r) - (l + r) == b;
  }

  lemma {:induction false} AppendedCounts(t: Node, p: Path, child: Node, x: Id)
    requires ValidPath(t, p) && IsLayout(NodeAt(t, p))
    ensures var r := Put(t, p, WithKids(NodeAt(t, p), NodeAt(t, p).kind.kids + [child]));
      && Occ(x, r) == Occ(x, t) + Occ(x, child)
      && (x != NodeAt(t, p).id ==> Rows(x, r) == Rows(x, t) + Rows(x, child))
  {
    var kids := NodeAt(t, p).kind.kids;
    D.KidsOcc(t, p, kids + [child], x);
    OccConcat(x, kids, [child]);
    if x != NodeAt(t, p).id {
      KidsRows(t, p, kids + [child], x);
      RowsConcat(x, kids, [child]);
      assert RowsSeq(x, [child]) == Rows(x, child) + multiset{};
      Gained(Rows(x, Put(t, p, WithKids(NodeAt(t, p), kids + [child]))), Rows(x, t), RowsSeq(x, kids), Rows(x, child));
    }
  }

  lemma {:induction false} Gained(a: multiset<Row>, b: multiset<Row>, l: multiset<Row>, c: multiset<Row>)
    requires a + l == b + (l + c)
    ensures a == b + c
  {
    assert (a + l) - l == a;
    assert (b + (l + c)) - l == b + c;
  }

  // Appending a child that shares no id.
  lemma {:induction false} AppendRows(t: Node, p: Path, child: Node) returns (r: Node)
    requires UniqueIds(t) && UniqueIds(child) && ValidPath(t, p) && IsLayout(NodeAt(t, p))
    requires forall x :: Occ(x, t) + Occ(x, child) <= 1
    ensures var n := NodeAt(t, p);
      && r == Put(t, p, WithKids(n, n.kind.kids + [child])) && ApplyInsert(n.id, child, t) == Ok(r)
      && UniqueIds(r) && ValidPath(r, p) && NodeAt(r, p) == WithKids(n, n.kind.kids + [child])
      && (forall x :: Occ(x, r) == Occ(x, t) + Occ(x, child))
      && (forall x | x != n.id :: Rows(x, r) == Rows(x, t) + Rows(x, child))
  {
    var n := NodeAt(t, p);
    r := Put(t, p, WithKids(n, n.kind.kids + [child]));
    D.PathOfId(t, p);
    NotShared(child, t);
    PutAt(t, p, WithKids(n, n.kind.kids + [child]));
    forall x
      ensures Occ(x, r) == Occ(x, t) + Occ(x, child)
      ensures x != n.id ==> Rows(x, r) == Rows(x, t) + Rows(x, child)
    {
      AppendedCounts(t, p, child, x);
    }
  }

  lemma {:induction false} NotShared(a: Node, b: Node)
    requires forall x :: Occ(x, b) + Occ(x, a) <= 1
    ensures !SharesId(a, b)
  {
    forall x | x in AllIds(a) ensures x !in AllIds(b) {
      OccIds(x, a);
      OccIds(x, b);
      assert Occ(x, b) + Occ(x, a) <= 1;
    }
  }

  lemma {:induction false} RowsPermutation(x: Id, s: seq<Node>, t: seq<Node>)
    requires multiset(s) == multiset(t)
    ensures RowsSeq(x, s) == RowsSeq(x, t) && OccSeq(x, s) == OccSeq(x, t)
  {
    if s == [] {
      assert |multiset(t)| == 0;
    } else {
      var k := TakeOut(s, t);
      RowsPermutation(x, s[1..], t[..k] + t[k + 1..]);
      RowsConcat(x, t[..k], t[k + 1..]);
      RowsSplit(x, t, k);
      OccConcat(x, t[..k], t[k + 1..]);
      OccSplit(x, t, k);
    }
  }

  lemma {:induction false} PermutedCounts(t: Node, p: Path, kids: seq<Node>, x: Id)
    requires ValidPath(t, p) && IsLayout(NodeAt(t, p)) && multiset(NodeAt(t, p).kind.kids) == multiset(kids)
    ensures var r := Put(t, p, WithKids(NodeAt(t, p), kids));
      Occ(x, r) == Occ(x, t) && (x != NodeAt(t, p).id ==> Rows(x, r) == Rows(x, t))
  {
    D.KidsOcc(t, p, kids, x);
    RowsPermutation(x, NodeAt(t, p).kind.kids, kids);
    if x != NodeAt(t, p).id {
      KidsRows(t, p, kids, x);
      var r := Put(t, p, WithKids(NodeAt(t, p), kids));
      Gained(Rows(x, r), Rows(x, t), RowsSeq(x, kids), multiset{});
    }
  }

  // Naming every child once, in another order.
  lemma {:induction false} ReorderRows(t: Node, p: Path, order: seq<Id>) returns (r: Node)
    requires UniqueIds(t) && ValidPath(t, p) && IsLayout(NodeAt(t, p))
    requires SameIdMultiset(NodeAt(t, p).kind.kids, order)
    ensures var n := NodeAt(t, p);
      && ApplyReorder(n.id, order, t) == Ok(r)
      && UniqueIds(r) && ValidPath(r, p)
      && RowOf(NodeAt(r, p)) == RowOf(n).(kids := order) && NodeAt(r, p).id == n.id
      && r.id == t.id
      && (forall x :: Occ(x, r) == Occ(x, t))
      && (forall x | x != n.id :: Rows(x, r) == Rows(x, t))
      && (forall x | x in Ids(n.kind.kids) :: FindNode(x, r) == FindNode(x, t))
  {
    var n := NodeAt(t, p);
    var kids := Reordered(n.kind.kids, order);
    r := Put(t, p, WithKids(n, kids));
    D.PathOfId(t, p);
    DistinctKids(t, p);
    ReorderedPermutes(n.kind.kids, order);
    PutAt(t, p, WithKids(n, kids));
    forall x
      ensures Occ(x, r) == Occ(x, t)
      ensures x != n.id ==> Rows(x, r) == Rows(x, t)
    {
      PermutedCounts(t, p, kids, x);
    }
    forall x | x in Ids(n.kind.kids) ensures FindNode(x, r) == FindNode(x, t) {
      KidKept(t, r, p, kids, x);
    }
  }

  lemma {:induction false} KidKept(t: Node, r: Node, p: Path, kids: seq<Node>, x: Id)
    requires UniqueIds(t) && UniqueIds(r) && ValidPath(t, p) && ValidPath(r, p)
    requires multiset(NodeAt(t, p).kind.kids) == multiset(kids) == multiset(NodeAt(r, p).kind.kids)
    requires x in Ids(NodeAt(t, p).kind.kids)
    ensures FindNode(x, r) == FindNode(x, t)
  {
    var before, after := NodeAt(t, p).kind.kids, NodeAt(r, p).kind.kids;
    var i :| 0 <= i < |before| && Ids(before)[i] == x;
    assert before[i] in multiset(before);
    var j :| 0 <= j < |after| && after[j] == before[i];
    KidFound(t, p, i);
    KidFound(r, p, j);
  }

  // -- Moving ----------------------------------------------------------------

  // Where the structural ops find a node: its layout parent, and its index there.
  lemma {:induction false} Seated(root: Node, m: Id) returns (p: Path, i: nat)
    requires UniqueIds(root) && FirstParent(m, root).Some?
    ensures FirstParent(m, root) == Some(p) && ValidPath(root, p) && IsLayout(NodeAt(root, p))
    ensures i < |NodeAt(root, p).kind.kids| && NodeAt(root, p).kind.kids[i].id == m
    ensures FirstPath(m, root) == Some(p + [i]) && FindNode(m, root) == Some(NodeAt(root, p).kind.kids[i])
    ensures UniqueIds(NodeAt(root, p).kind.kids[i]) && root.id != m
    ensures Others(Ids(NodeAt(root, p).kind.kids), m)
         == Ids(NodeAt(root, p).kind.kids[..i] + NodeAt(root, p).kind.kids[i + 1..])
  {
    p := FirstParent(m, root).value;
    var kids := NodeAt(root, p).kind.kids;
    i :| 0 <= i < |kids| && Ids(kids)[i] == m;
    D.KidPath(root, p, i);
    D.PathOfId(root, p + [i]);
    D.ParentOfKid(root, p, i);
    UniqueAt(root, p + [i]);
    DistinctKids(root, p);
    OthersOut(kids, i);
  }

  lemma {:induction false} OthersOut(kids: seq<Node>, i: nat)
    requires DistinctIds(kids) && i < |kids|
    ensures Others(Ids(kids), kids[i].id) == Ids(kids[..i] + kids[i + 1..])
  {
    var ids := Ids(kids);
    assert ids[i] !in ids[..i] && ids[i] !in ids[i + 1..];
    OthersAround(ids, i);
    assert ids[..i] + ids[i + 1..] == Ids(kids[..i] + kids[i + 1..]);
  }

  predicate Movable(root: Node, m: Id, dest: Id) {
    && FirstParent(m, root).Some? && m != dest && !IsAncestor(m, dest, root)
    && FindNode(dest, root).Some? && IsLayout(FindNode(dest, root).value)
  }

  // The whole table after a move: the destination's children in the given order, the old
  // parent's without the moved node, every other row as it was.
  ghost predicate MovedTable(root: Node, r: Node, m: Id, dest: Id, order: seq<Id>)
    requires Movable(root, m, dest)
  {
    var home := NodeAt(root, FirstParent(m, root).value);
    && UniqueIds(r) && r.id == root.id && FindNode(m, r) == FindNode(m, root)
    && Rows(dest, r) == multiset{RowOf(FindNode(dest, root).value).(kids := order)}
    && (home.id != dest ==> Rows(home.id, r) == multiset{RowOf(home).(kids := Others(Ids(home.kind.kids), m))})
    && (forall x | x != dest && x != home.id :: Rows(x, r) == Rows(x, root))
  }

  lemma {:induction false} NoRows(x: Id, n: Node)
    requires Occ(x, n) == 0
    ensures Rows(x, n) == multiset{}
  {
    RowsCount(x, n);
  }

  lemma {:induction false} RowOfId(t: Node, x: Id, row: Row) returns (p: Path)
    requires UniqueIds(t) && Rows(x, t) == multiset{row}
    ensures ValidPath(t, p) && FirstPath(x, t) == Some(p) && NodeAt(t, p).id == x && RowOf(NodeAt(t, p)) == row
  {
    RowsCount(x, t);
    p := FirstPath(x, t).value;
    UniqueRow(t, p);
    assert RowOf(NodeAt(t, p)) in multiset{row};
  }

  lemma {:induction false} IsLayoutRow(a: Node, b: Node)
    requires RowOf(a).own.kind.tag == RowOf(b).own.kind.tag
    ensures IsLayout(a) == IsLayout(b)
  {
  }

  // Where the destination is once the node is out.
  lemma {:induction false} DestAfterRemove(root: Node, m: Id, dest: Id, p: Path, i: nat, r1: Node) returns (q: Path)
    requires UniqueIds(root) && Movable(root, m, dest)
    requires FirstParent(m, root) == Some(p) && ValidPath(root, p) && IsLayout(NodeAt(root, p))
    requires i < |NodeAt(root, p).kind.kids| && FindNode(m, root) == Some(NodeAt(root, p).kind.kids[i])
    requires NodeAt(root, p).kind.kids[i].id == m
    requires var n := NodeAt(root, p);
      var kids := n.kind.kids[..i] + n.kind.kids[i + 1..];
      && UniqueIds(r1) && ValidPath(r1, p) && NodeAt(r1, p) == WithKids(n, kids)
      && Others(Ids(n.kind.kids), m) == Ids(kids)
      && (forall x | x != n.id :: Rows(x, r1) + Rows(x, n.kind.kids[i]) == Rows(x, root))
    ensures ValidPath(r1, q) && NodeAt(r1, q).id == dest && IsLayout(NodeAt(r1, q))
    ensures RowOf(NodeAt(r1, q))
         == RowOf(FindNode(dest, root).value).(kids := Others(Ids(FindNode(dest, root).value.kind.kids), m))
  {
    var n := NodeAt(root, p);
    if n.id == dest {
      q := p;
      D.PathOfId(root, p);
      RowWithKids(n, n.kind.kids[..i] + n.kind.kids[i + 1..]);
    } else {
      var d := FirstPath(dest, root).value;
      var moving := n.kind.kids[i];
      assert Occ(dest, moving) == 0;
      NoRows(dest, moving);
      UniqueRow(root, d);
      assert Rows(dest, r1) == Rows(dest, root);
      q := RowOfId(r1, dest, RowOf(NodeAt(root, d)));
      IsLayoutRow(NodeAt(r1, q), NodeAt(root, d));
      NotTwoParents(root, p, i, d);
      OthersNone(Ids(NodeAt(root, d).kind.kids), m);
    }
  }

  // A kid of one layout node is no kid of another.
  lemma {:induction false} NotTwoParents(root: Node, p: Path, i: nat, d: Path)
    requires UniqueIds(root) && ValidPath(root, p) && ValidPath(root, d) && p != d
    requires IsLayout(NodeAt(root, p)) && i < |NodeAt(root, p).kind.kids|
    ensures NodeAt(root, p).kind.kids[i].id !in Ids(NodeAt(root, d).kind.kids)
  {
    var m := NodeAt(root, p).kind.kids[i].id;
    if m in Ids(NodeAt(root, d).kind.kids) {
      var j :| 0 <= j < |NodeAt(root, d).kind.kids| && Ids(NodeAt(root, d).kind.kids)[j] == m;
      D.KidPath(root, p, i);
      D.KidPath(root, d, j);
      UniquePath(root, p + [i], d + [j]);
      SamePrefix(p, i, d, j);
      assert false;
    }
  }

  lemma {:induction false} SamePrefix(p: Path, i: nat, q: Path, j: nat)
    requires p + [i] == q + [j]
    ensures p == q
  {
    assert |p + [i]| == |q + [j]|;
    assert (p + [i])[..|p|] == p && (q + [j])[..|q|] == q;
  }

  lemma {:induction false} MoveIs(root: Node, m: Id, dest: Id, moving: Node, r1: Node, r: Node)
    requires Movable(root, m, dest) && FindNode(m, root) == Some(moving)
    requires ApplyRemove(m, root) == Ok(r1) && ApplyInsert(dest, moving, r1) == Ok(r)
    ensures ApplyMove(m, dest, root) == Ok(r)
  {
  }

  lemma {:induction false} TableOfMove(
      root: Node, m: Id, dest: Id, p: Path, i: nat, r1: Node, q: Path, r: Node, order: seq<Id>)
    requires UniqueIds(root) && Movable(root, m, dest) && Halfway(root, m, dest, p, i, r1, q)
    requires UniqueIds(r) && r.id == root.id && FindNode(m, r) == FindNode(m, root)
    requires forall x | x != dest :: Rows(x, r) == Rows(x, r1) + Rows(x, NodeAt(root, p).kind.kids[i])
    requires Rows(dest, r) == multiset{RowOf(FindNode(dest, root).value).(kids := order)}
    ensures MovedTable(root, r, m, dest, order)
  {
    var n, moving := NodeAt(root, p), NodeAt(root, p).kind.kids[i];
    if n.id != dest {
      UniqueRow(r1, p);
      assert Occ(n.id, r1) + Occ(n.id, moving) <= 1;
      NoRows(n.id, moving);
    }
  }

  // The first half of a move: the node is out, and the destination is still there.
  ghost predicate Halfway(root: Node, m: Id, dest: Id, p: Path, i: nat, r1: Node, q: Path) {
    && FirstParent(m, root) == Some(p) && ValidPath(root, p) && i < |NodeAt(root, p).kind.kids|
    && UniqueIds(r1) && r1.id == root.id && ValidPath(r1, p) && ValidPath(r1, q)
    && NodeAt(r1, q).id == dest && IsLayout(NodeAt(r1, q)) && FindNode(dest, root).Some?
    && RowOf(NodeAt(r1, q))
       == RowOf(FindNode(dest, root).value).(kids := Others(Ids(FindNode(dest, root).value.kind.kids), m))
    && var n, moving := NodeAt(root, p), NodeAt(root, p).kind.kids[i];
       && moving.id == m && UniqueIds(moving)
       && NodeAt(r1, p).id == n.id && RowOf(NodeAt(r1, p)) == RowOf(n).(kids := Others(Ids(n.kind.kids), m))
       && (forall x :: Occ(x, r1) + Occ(x, moving) <= 1)
       && (forall x | x != n.id :: Rows(x, r1) + Rows(x, moving) == Rows(x, root))
  }

  lemma {:induction false} MoveOut(root: Node, m: Id, dest: Id) returns (p: Path, i: nat, r1: Node, q: Path)
    requires UniqueIds(root) && Movable(root, m, dest)
    ensures Halfway(root, m, dest, p, i, r1, q)
    ensures FindNode(m, root) == Some(NodeAt(root, p).kind.kids[i]) && ApplyRemove(m, root) == Ok(r1)
  {
    p, i := Seated(root, m);
    var n := NodeAt(root, p);
    r1 := RemoveRows(root, p, i);
    q := DestAfterRemove(root, m, dest, p, i, r1);
    Halves(root, r1, n.kind.kids[i]);
    RowWithKids(n, n.kind.kids[..i] + n.kind.kids[i + 1..]);
  }

  lemma {:induction false} MoveIn(root: Node, m: Id, dest: Id, p: Path, i: nat, r1: Node, q: Path) returns (r: Node)
    requires UniqueIds(root) && Movable(root, m, dest) && Halfway(root, m, dest, p, i, r1, q)
    requires FindNode(m, root) == Some(NodeAt(root, p).kind.kids[i])
    ensures ApplyInsert(dest, NodeAt(root, p).kind.kids[i], r1) == Ok(r)
    ensures MovedTable(root, r, m, dest, PostMoveMembership(Ids(FindNode(dest, root).value.kind.kids), m))
  {
    var moving := NodeAt(root, p).kind.kids[i];
    r := AppendRows(r1, q, moving);
    DestRow(r1, q, moving, r);
    KidFound(r, q, |NodeAt(r1, q).kind.kids|);
    TableOfMove(root, m, dest, p, i, r1, q, r, PostMoveMembership(Ids(FindNode(dest, root).value.kind.kids), m));
  }

  lemma {:induction false} MoveLands(root: Node, m: Id, dest: Id) returns (r: Node)
    requires UniqueIds(root) && Movable(root, m, dest)
    ensures ApplyMove(m, dest, root) == Ok(r)
    ensures MovedTable(root, r, m, dest, PostMoveMembership(Ids(FindNode(dest, root).value.kind.kids), m))
  {
    var p, i, r1, q := MoveOut(root, m, dest);
    r := MoveIn(root, m, dest, p, i, r1, q);
    MoveIs(root, m, dest, NodeAt(root, p).kind.kids[i], r1, r);
  }

  lemma {:induction false} KidFound(t: Node, p: Path, i: nat)
    requires UniqueIds(t) && ValidPath(t, p) && i < |NodeAt(t, p).kind.kids|
    ensures FindNode(NodeAt(t, p).kind.kids[i].id, t) == Some(NodeAt(t, p).kind.kids[i])
  {
    D.KidPath(t, p, i);
    D.PathOfId(t, p + [i]);
  }

  lemma {:induction false} Halves(root: Node, r1: Node, moving: Node)
    requires UniqueIds(root) && forall x :: Occ(x, r1) + Occ(x, moving) == Occ(x, root)
    ensures forall x :: Occ(x, r1) + Occ(x, moving) <= 1
  {
    forall x ensures Occ(x, r1) + Occ(x, moving) <= 1 {
      assert Occ(x, root) <= 1;
    }
  }

  lemma {:induction false} DestRow(r1: Node, q: Path, moving: Node, r: Node)
    requires ValidPath(r1, q) && IsLayout(NodeAt(r1, q)) && UniqueIds(r) && ValidPath(r, q)
    requires NodeAt(r, q) == WithKids(NodeAt(r1, q), NodeAt(r1, q).kind.kids + [moving])
    ensures Rows(NodeAt(r1, q).id, r)
         == multiset{RowOf(NodeAt(r1, q)).(kids := Ids(NodeAt(r1, q).kind.kids) + [moving.id])}
  {
    var d := NodeAt(r1, q);
    RowWithKids(d, d.kind.kids + [moving]);
    assert Ids(d.kind.kids + [moving]) == Ids(d.kind.kids) + [moving.id];
    UniqueRow(r, q);
  }

  // -- The ordered op --------------------------------------------------------

  // The append lands, then the reorder states the wanted order.
  lemma {:induction false} OrderedLands(
      root: Node, op: Op, r: Node, dest: Id, row: Row, appended: seq<Id>, wanted: seq<Id>)
    returns (out: Node)
    requires ApplyOne(op, root) == Ok(r) && UniqueIds(r)
    requires Rows(dest, r) == multiset{row.(kids := appended)} && IsLayoutTag(row.own.kind.tag)
    requires multiset(appended) == multiset(wanted)
    ensures ApplyOne(Ordered(op, dest, appended, wanted), root) == Ok(out)
    ensures UniqueIds(out) && out.id == r.id && Rows(dest, out) == multiset{row.(kids := wanted)}
    ensures forall x | x != dest :: Rows(x, out) == Rows(x, r)
    ensures forall x | x in appended :: FindNode(x, out) == FindNode(x, r)
  {
    if wanted == appended {
      out := r;
    } else {
      out := RelistRow(r, dest, row.(kids := appended), wanted);
      assert row.(kids := appended).(kids := wanted) == row.(kids := wanted);
      ReorderIs(ReorderChildren(dest, wanted), r);
      TwoSteps(op, ReorderChildren(dest, wanted), root, r, out);
    }
  }

  // The reorder of the one node with a given row.
  lemma {:induction false} RelistRow(r: Node, dest: Id, row: Row, wanted: seq<Id>) returns (out: Node)
    requires UniqueIds(r) && Rows(dest, r) == multiset{row} && IsLayoutTag(row.own.kind.tag)
    requires multiset(row.kids) == multiset(wanted)
    ensures ApplyReorder(dest, wanted, r) == Ok(out) && UniqueIds(out) && out.id == r.id
    ensures Rows(dest, out) == multiset{row.(kids := wanted)}
    ensures forall x | x != dest :: Rows(x, out) == Rows(x, r)
    ensures forall x | x in row.kids :: FindNode(x, out) == FindNode(x, r)
  {
    var p := RowOfId(r, dest, row);
    assert Ids(NodeAt(r, p).kind.kids) == row.kids;
    out := ReorderRows(r, p, wanted);
    UniqueRow(out, p);
  }

  lemma {:induction false} ReorderIs(op: Op, t: Node)
    requires op.ReorderChildren?
    ensures ApplyOne(op, t) == ApplyReorder(op.parentId, op.newOrder, t)
  {
  }

  lemma {:induction false} LastStep(op: Op, done: nat, mid: Node, out: Node)
    requires ApplyOne(op, mid) == Ok(out)
    ensures ApplySeq([op], done, mid) == Ok(out)
  {
    SeqStep([op], done, mid, out);
    assert [op][1..] == [];
  }

  lemma {:induction false} SeqStep(ops: seq<Op>, done: nat, t: Node, next: Node)
    requires ops != [] && ApplyOne(ops[0], t) == Ok(next)
    ensures ApplySeq(ops, done, t) == ApplySeq(ops[1..], done + 1, next)
  {
  }

  lemma {:induction false} BatchIs(ops: seq<Op>, t: Node)
    ensures ApplyOne(Batch(ops), t) == ApplySeq(ops, 0, t)
  {
  }

  lemma {:induction false} TwoSteps(first: Op, second: Op, root: Node, mid: Node, out: Node)
    requires ApplyOne(first, root) == Ok(mid) && ApplyOne(second, mid) == Ok(out)
    ensures ApplyOne(Batch([first, second]), root) == Ok(out)
  {
    var ops := [first, second];
    BatchIs(ops, root);
    SeqStep(ops, 0, root, mid);
    LastStep(second, 1, mid, out);
    assert ops[1..] == [second];
  }

  // -- Refusals agree --------------------------------------------------------

  lemma {:induction false} AcceptedMovable(root: Node, m: Id, dest: Id)
    requires ApplyMove(m, dest, root).Ok?
    ensures Movable(root, m, dest)
  {
    assert MoveRefusal(m, dest, root).None?;
    assert ApplyRemove(m, root).Ok?;
  }

  // The engine accepts a move exactly when the placement checks allow an append there.
  lemma {:induction false} MoveAccepts(root: Node, m: Id, dest: Id)
    requires UniqueIds(root)
    ensures ApplyMove(m, dest, root).Ok? <==> Movable(root, m, dest)
  {
    if ApplyMove(m, dest, root).Ok? {
      AcceptedMovable(root, m, dest);
    }
    if Movable(root, m, dest) {
      var _ := MoveLands(root, m, dest);
    }
  }

  lemma {:induction false} CanPlaceMeans(root: Node, m: Id, target: Target)
    ensures CanPlace(root, m, target).None? <==>
      && Movable(root, m, target.parentId)
      && Reposition(
           PostMoveMembership(Ids(FindNode(target.parentId, root).value.kind.kids), m), m, target.placement).Ok?
  {
    if root.id == m && FindNode(target.parentId, root).Some? && target.parentId != m {
      assert FirstPath(m, root) == Some([]);
      assert IsAncestor(m, target.parentId, root);
    }
  }

  lemma {:induction false} CanPlaceLast(root: Node, m: Id, dest: Id)
    requires UniqueIds(root)
    ensures CanPlace(root, m, Target(dest, Last)).None? <==> ApplyMove(m, dest, root).Ok?
  {
    CanPlaceMeans(root, m, Target(dest, Last));
    MoveAccepts(root, m, dest);
  }

  // -- Moves -----------------------------------------------------------------

  // The order a placement asks of the destination.
  function WantedOrder(root: Node, m: Id, target: Target): seq<Id>
    requires CanPlace(root, m, target).None?
  {
    Reposition(PostMoveMembership(ContainerChildren(root, target.parentId).value, m), m, target.placement).value
  }

  lemma {:induction false} MembershipOrder(siblings: seq<Id>, m: Id, placement: Placement)
    requires Reposition(PostMoveMembership(siblings, m), m, placement).Ok?
    ensures var wanted := Reposition(PostMoveMembership(siblings, m), m, placement).value;
      multiset(PostMoveMembership(siblings, m)) == multiset(wanted) && Others(wanted, m) == Others(siblings, m)
  {
    OthersGone(siblings, m);
    OthersConcat(Others(siblings, m), [m], m);
    OthersNone(Others(siblings, m), m);
    assert Others([m], m) == [];
    RepositionMeans(PostMoveMembership(siblings, m), m, placement);
  }

  lemma {:induction false} Retabled(
      root: Node, moved: Node, r: Node, m: Id, dest: Id, appended: seq<Id>, wanted: seq<Id>)
    requires Movable(root, m, dest) && MovedTable(root, moved, m, dest, appended)
    requires UniqueIds(r) && r.id == moved.id && FindNode(m, r) == FindNode(m, moved)
    requires Rows(dest, r) == multiset{RowOf(FindNode(dest, root).value).(kids := wanted)}
    requires forall x | x != dest :: Rows(x, r) == Rows(x, moved)
    ensures MovedTable(root, r, m, dest, wanted)
  {
  }

  lemma {:induction false} OrderedMove(
      root: Node, m: Id, dest: Id, appended: seq<Id>, wanted: seq<Id>)
      returns (r: Node)
    requires UniqueIds(root) && Movable(root, m, dest)
    requires appended == PostMoveMembership(Ids(FindNode(dest, root).value.kind.kids), m)
    requires multiset(appended) == multiset(wanted)
    ensures ApplyOne(Ordered(MoveNode(m, dest), dest, appended, wanted), root) == Ok(r)
    ensures MovedTable(root, r, m, dest, wanted)
  {
    var moved := MoveLands(root, m, dest);
    MoveStep(MoveNode(m, dest), root);
    var row := RowOf(FindNode(dest, root).value);
    r := OrderedLands(root, MoveNode(m, dest), moved, dest, row, appended, wanted);
    assert m in appended;
    Retabled(root, moved, r, m, dest, appended, wanted);
  }

  lemma {:induction false} MoveStep(op: Op, root: Node)
    requires op.MoveNode?
    ensures ApplyOne(op, root) == ApplyMove(op.target, op.newParentId, root)
  {
  }

  lemma {:induction false} MoveOpTable(root: Node, m: Id, target: Target) returns (r: Node)
    requires UniqueIds(root) && MoveOp(root, m, target).Ok?
    ensures CanPlace(root, m, target).None? && Movable(root, m, target.parentId)
    ensures ApplyOne(MoveOp(root, m, target).value, root) == Ok(r)
    ensures MovedTable(root, r, m, target.parentId, WantedOrder(root, m, target))
    ensures Others(WantedOrder(root, m, target), m)
         == Others(Ids(FindNode(target.parentId, root).value.kind.kids), m)
  {
    CanPlaceMeans(root, m, target);
    var siblings := Ids(FindNode(target.parentId, root).value.kind.kids);
    MembershipOrder(siblings, m, target.placement);
    r := OrderedMove(root, m, target.parentId, PostMoveMembership(siblings, m), WantedOrder(root, m, target));
  }

  // A move op applies, and the finished tree is the wanted one: the destination's
  // children in the wanted order, the old parent's without the node, nothing else touched.
  lemma {:induction false} MoveOpLands(root: Node, m: Id, target: Target) returns (r: Node)
    requires UniqueIds(root) && MoveOp(root, m, target).Ok?
    ensures CanPlace(root, m, target).None? && Movable(root, m, target.parentId)
    ensures ApplyOne(MoveOp(root, m, target).value, root) == Ok(r)
    ensures MovedTable(root, r, m, target.parentId, WantedOrder(root, m, target))
    ensures Stands(
      WantedOrder(root, m, target), Ids(FindNode(target.parentId, root).value.kind.kids), m, target.placement)
    ensures IsOrdered(
      MoveOp(root, m, target).value, MoveNode(m, target.parentId), m, target.parentId, WantedOrder(root, m, target))
  {
    r := MoveOpTable(root, m, target);
    WantedStands(root, m, target);
    var siblings := Ids(FindNode(target.parentId, root).value.kind.kids);
    MembershipOthers(siblings, m);
    OrderedIs(MoveNode(m, target.parentId), m, target.parentId, PostMoveMembership(siblings, m), target.placement);
  }

  lemma {:induction false} WantedStands(root: Node, m: Id, target: Target)
    requires UniqueIds(root) && CanPlace(root, m, target).None? && FindNode(target.parentId, root).Some?
    ensures Stands(
      WantedOrder(root, m, target), Ids(FindNode(target.parentId, root).value.kind.kids), m, target.placement)
  {
    var siblings := Ids(FindNode(target.parentId, root).value.kind.kids);
    WantedIs(root, m, target, siblings);
    MembershipOthers(siblings, m);
    KidIdsDistinct(root, FirstPath(target.parentId, root).value);
    PlacedStands(siblings, PostMoveMembership(siblings, m), m, target.placement);
  }

  lemma {:induction false} WantedIs(root: Node, m: Id, target: Target, siblings: seq<Id>)
    requires CanPlace(root, m, target).None? && FindNode(target.parentId, root).Some?
    requires siblings == Ids(FindNode(target.parentId, root).value.kind.kids)
    ensures Reposition(PostMoveMembership(siblings, m), m, target.placement) == Ok(WantedOrder(root, m, target))
  {
  }

  // The op alone when the id ends up last, where an append leaves it; otherwise with the order
  // restated after it.
  ghost predicate IsOrdered(op: Op, first: Op, x: Id, dest: Id, order: seq<Id>) {
    && order != []
    && op == if order[|order| - 1] == x then first else Batch([first, ReorderChildren(dest, order)])
  }

  lemma {:induction false} OrderedIs(first: Op, x: Id, dest: Id, appended: seq<Id>, placement: Placement)
    requires appended == Others(appended, x) + [x] && Reposition(appended, x, placement).Ok?
    ensures var wanted := Reposition(appended, x, placement).value;
      IsOrdered(Ordered(first, dest, appended, wanted), first, x, dest, wanted)
  {
    LastMeans(x, appended, placement);
  }

  lemma {:induction false} LastMeans(x: Id, appended: seq<Id>, placement: Placement)
    requires appended == Others(appended, x) + [x] && Reposition(appended, x, placement).Ok?
    ensures var wanted := Reposition(appended, x, placement).value;
      wanted != [] && (wanted == appended <==> wanted[|wanted| - 1] == x)
  {
    var rest := Others(appended, x);
    var i := SeatIn(rest, placement);
    PlacedIn(rest, x, placement);
    OthersGone(appended, x);
    NotLast(rest, x, i);
  }

  lemma {:induction false} NotLast(rest: seq<Id>, x: Id, i: nat)
    requires x !in rest && i <= |rest|
    ensures var wanted := rest[..i] + [x] + rest[i..]; wanted == rest + [x] <==> wanted[|wanted| - 1] == x
  {
    var wanted := rest[..i] + [x] + rest[i..];
    if i == |rest| {
      assert wanted == rest + [x];
    } else {
      assert wanted[|wanted| - 1] == rest[|rest| - 1] && rest[|rest| - 1] in rest;
      assert (rest + [x])[|rest|] == x;
    }
  }

  // Under the guards the op is refused only for the limits.
  lemma {:induction false} MoveOpGuarded(root: Node, m: Id, target: Target)
    requires UniqueIds(root) && MoveOp(root, m, target).Ok?
    ensures var op := MoveOp(root, m, target).value;
      ApplyOne(op, root).Ok? && (Apply(op, root).Ok? <==> WithinLimits(ApplyOne(op, root).value))
  {
    var r := MoveOpTable(root, m, target);
    MoveGuards(MoveOp(root, m, target).value, m, target.parentId, root);
  }

  lemma {:induction false} MoveGuards(op: Op, m: Id, dest: Id, root: Node)
    requires ApplyOne(op, root).Ok?
    requires op == MoveNode(m, dest) || exists w :: op == Batch([MoveNode(m, dest), ReorderChildren(dest, w)])
    ensures Apply(op, root).Ok? <==> WithinLimits(ApplyOne(op, root).value)
  {
    if op.Batch? {
      var w :| op == Batch([MoveNode(m, dest), ReorderChildren(dest, w)]);
      InstallsNothing(MoveNode(m, dest), ReorderChildren(dest, w));
      assert OpCanGrow(op.ops[0]);
    }
  }

  lemma {:induction false} InstallsNothing(move: Op, reorder: Op)
    requires move.MoveNode? && reorder.ReorderChildren?
    ensures InsertedNodes(Batch([move, reorder])) == []
  {
    var ops := [move, reorder];
    assert ops[1..] == [reorder] && ops[1..][1..] == [];
    assert InsertedSeq(ops) == InsertedNodes(move) + (InsertedNodes(reorder) + InsertedSeq([]));
  }

  // Where a node sits now, as a target.
  function Home(root: Node, m: Id): Target
    requires FirstParent(m, root).Some?
  {
    var parent := NodeAt(root, FirstParent(m, root).value);
    var ids := Ids(parent.kind.kids);
    var i := IndexOf(ids, m).value;
    Target(parent.id, if i == 0 then First else After(ids[i - 1]))
  }

  lemma {:induction false} IndexAt(s: seq<Id>, j: nat)
    requires j < |s| && AllDistinct(s)
    ensures IndexOf(s, s[j]) == Some(j)
  {
    var k := IndexOf(s, s[j]).value;
    assert forall a | 0 <= a < k :: s[..k][a] == s[a];
  }

  ghost predicate AllDistinct(s: seq<Id>) {
    forall a, b | 0 <= a < b < |s| :: s[a] != s[b]
  }

  function Without1(s: seq<Id>, i: nat): seq<Id>
    requires i < |s|
  {
    s[..i] + s[i + 1..]
  }

  lemma {:induction false} RestDistinct(s: seq<Id>, i: nat)
    requires AllDistinct(s) && i < |s|
    ensures AllDistinct(Without1(s, i))
  {
    var rest := Without1(s, i);
    forall a, b | 0 <= a < b < |rest| ensures rest[a] != rest[b] {
      assert rest[a] == s[if a < i then a else a + 1] && rest[b] == s[if b < i then b else b + 1];
    }
  }

  lemma {:induction false} PutBackAt(s: seq<Id>, i: nat)
    requires i < |s|
    ensures Without1(s, i)[..i] + [s[i]] + Without1(s, i)[i..] == s
    ensures i > 0 ==> Without1(s, i)[i - 1] == s[i - 1]
    ensures i == 0 ==> [s[0]] + Without1(s, i) == s
  {
  }

  lemma {:induction false} HomePlaced(s: seq<Id>, i: nat)
    requires AllDistinct(s) && i < |s|
    ensures PlacedAs(Without1(s, i), s[i], if i == 0 then First else After(s[i - 1])) == Ok(s)
  {
    PutBackAt(s, i);
    if i > 0 {
      RestDistinct(s, i);
      IndexAt(Without1(s, i), i - 1);
    }
  }

  lemma {:induction false} HomeOrder(ids: seq<Id>, i: nat, order: seq<Id>)
    requires AllDistinct(ids) && i < |ids| && Others(order, ids[i]) == Others(ids, ids[i])
    ensures Reposition(order, ids[i], if i == 0 then First else After(ids[i - 1])) == Ok(ids)
  {
    assert ids[i] !in ids[..i] && ids[i] !in ids[i + 1..];
    OthersAround(ids, i);
    HomePlaced(ids, i);
  }

  // Where the node hangs in the moved tree.
  lemma {:induction false} MovedHome(root: Node, r: Node, m: Id, dest: Id, order: seq<Id>) returns (q: Path)
    requires UniqueIds(root) && Movable(root, m, dest) && MovedTable(root, r, m, dest, order) && m in order
    ensures FirstParent(m, r) == Some(q) && ValidPath(r, q) && NodeAt(r, q).id == dest
    ensures RowOf(NodeAt(r, q)) == RowOf(FindNode(dest, root).value).(kids := order)
  {
    q := RowOfId(r, dest, RowOf(FindNode(dest, root).value).(kids := order));
    IsLayoutRow(NodeAt(r, q), FindNode(dest, root).value);
    assert Ids(NodeAt(r, q).kind.kids) == order;
    FirstParentComplete(m, r, q);
    var p, i := Seated(r, m);
    if p != q {
      NotTwoParents(r, p, i, q);
      assert false;
    }
  }

  // The node can go back to where it was.
  lemma {:induction false} BackMovable(root: Node, r: Node, m: Id, dest: Id, order: seq<Id>) returns (home: Node)
    requires UniqueIds(root) && Movable(root, m, dest) && MovedTable(root, r, m, dest, order) && m in order
    requires Others(order, m) == Others(Ids(FindNode(dest, root).value.kind.kids), m)
    ensures home == NodeAt(root, FirstParent(m, root).value) && Movable(r, m, home.id)
    ensures FindNode(home.id, r).Some?
    ensures RowOf(FindNode(home.id, r).value)
         == RowOf(home).(kids := Ids(FindNode(home.id, r).value.kind.kids))
    ensures Others(Ids(FindNode(home.id, r).value.kind.kids), m) == Others(Ids(home.kind.kids), m)
  {
    var p, i := Seated(root, m);
    home := NodeAt(root, p);
    NotInside(root, p, i);
    var q := MovedHome(root, r, m, dest, order);
    var h := HomeInMoved(root, r, m, dest, order, p, q);
    StillMovable(r, m, h, NodeAt(root, p).kind.kids[i]);
  }

  // The old parent in the moved tree.
  lemma {:induction false} HomeInMoved(root: Node, r: Node, m: Id, dest: Id, order: seq<Id>, p: Path, q: Path)
    returns (h: Path)
    requires UniqueIds(root) && Movable(root, m, dest) && MovedTable(root, r, m, dest, order)
    requires FirstParent(m, root) == Some(p) && ValidPath(root, p)
    requires ValidPath(r, q) && NodeAt(r, q).id == dest
    requires RowOf(NodeAt(r, q)) == RowOf(FindNode(dest, root).value).(kids := order)
    requires Others(order, m) == Others(Ids(FindNode(dest, root).value.kind.kids), m)
    ensures ValidPath(r, h) && FindNode(NodeAt(root, p).id, r) == Some(NodeAt(r, h))
    ensures RowOf(NodeAt(r, h)) == RowOf(NodeAt(root, p)).(kids := Ids(NodeAt(r, h).kind.kids))
    ensures Others(Ids(NodeAt(r, h).kind.kids), m) == Others(Ids(NodeAt(root, p).kind.kids), m)
    ensures NodeAt(r, h).id == NodeAt(root, p).id && IsLayout(NodeAt(r, h))
  {
    var home := NodeAt(root, p);
    if home.id != dest {
      h := RowOfId(r, home.id, RowOf(home).(kids := Others(Ids(home.kind.kids), m)));
      OthersTwice(Ids(home.kind.kids), m);
    } else {
      h := q;
      D.PathOfId(root, p);
      D.PathOfId(r, q);
    }
    IsLayoutRow(NodeAt(r, h), home);
  }

  lemma {:induction false} StillMovable(r: Node, m: Id, h: Path, moving: Node)
    requires FirstParent(m, r).Some? && FindNode(m, r) == Some(moving) && moving.id == m
    requires ValidPath(r, h) && FindNode(NodeAt(r, h).id, r) == Some(NodeAt(r, h)) && IsLayout(NodeAt(r, h))
    requires Occ(NodeAt(r, h).id, moving) == 0
    ensures Movable(r, m, NodeAt(r, h).id)
  {
  }

  lemma {:induction false} OthersTwice(s: seq<Id>, x: Id)
    ensures Others(Others(s, x), x) == Others(s, x)
  {
    OthersGone(s, x);
    OthersNone(Others(s, x), x);
  }

  // A parent is not inside its child.
  lemma {:induction false} NotInside(root: Node, p: Path, i: nat)
    requires UniqueIds(root) && ValidPath(root, p) && i < |NodeAt(root, p).kind.kids|
    ensures Occ(NodeAt(root, p).id, NodeAt(root, p).kind.kids[i]) == 0
  {
    var n := NodeAt(root, p);
    UniqueAt(root, p);
    assert Slots(n)[i] == n.kind.kids[i];
    OccMember(n.id, Slots(n), i);
    assert Occ(n.id, n) <= 1;
  }

  lemma {:induction false} BackOrder(root: Node, m: Id, now: seq<Id>)
    requires UniqueIds(root) && FirstParent(m, root).Some?
    requires Others(now, m) == Others(Ids(NodeAt(root, FirstParent(m, root).value).kind.kids), m)
    ensures Reposition(PostMoveMembership(now, m), m, Home(root, m).placement)
         == Ok(Ids(NodeAt(root, FirstParent(m, root).value).kind.kids))
  {
    var p, i := Seated(root, m);
    var ids := Ids(NodeAt(root, p).kind.kids);
    KidIdsDistinct(root, p);
    IndexAt(ids, i);
    MembershipOthers(now, m);
    HomeOrder(ids, i, PostMoveMembership(now, m));
  }

  lemma {:induction false} KidIdsDistinct(root: Node, p: Path)
    requires UniqueIds(root) && ValidPath(root, p)
    ensures AllDistinct(Ids(NodeAt(root, p).kind.kids))
  {
    DistinctKids(root, p);
  }

  lemma {:induction false} MembershipOthers(now: seq<Id>, m: Id)
    ensures Others(PostMoveMembership(now, m), m) == Others(now, m)
  {
    OthersConcat(Others(now, m), [m], m);
    OthersTwice(now, m);
    assert Others([m], m) == [] && Others(now, m) + [] == Others(now, m);
  }

  lemma {:induction false} HomeRowBack(root: Node, m: Id, row: Row, back: Node)
    requires UniqueIds(root) && FirstParent(m, root).Some?
    requires var home := NodeAt(root, FirstParent(m, root).value);
      row.(kids := Ids(home.kind.kids)) == RowOf(home)
      && Rows(home.id, back) == multiset{row.(kids := Ids(home.kind.kids))}
    ensures var home := NodeAt(root, FirstParent(m, root).value); Rows(home.id, back) == Rows(home.id, root)
  {
    UniqueRow(root, FirstParent(m, root).value);
  }

  lemma {:induction false} DestRowBack(root: Node, m: Id, dest: Id, order: seq<Id>, row: Row, back: Node)
    requires UniqueIds(root) && Movable(root, m, dest) && NodeAt(root, FirstParent(m, root).value).id != dest
    requires var d := FindNode(dest, root).value;
      && row == RowOf(d).(kids := order) && Others(order, m) == Others(Ids(d.kind.kids), m)
      && Rows(dest, back) == multiset{row.(kids := Others(order, m))}
    ensures Rows(dest, back) == Rows(dest, root)
  {
    var p, i := Seated(root, m);
    var d := FirstPath(dest, root).value;
    UniqueRow(root, d);
    NotTwoParents(root, p, i, d);
    OthersNone(Ids(NodeAt(root, d).kind.kids), m);
    assert RowOf(NodeAt(root, d)).(kids := Ids(NodeAt(root, d).kind.kids)) == RowOf(NodeAt(root, d));
  }

  lemma {:induction false} WantedHas(root: Node, m: Id, target: Target)
    requires CanPlace(root, m, target).None?
    ensures m in WantedOrder(root, m, target)
  {
    var siblings := ContainerChildren(root, target.parentId).value;
    MembershipOrder(siblings, m, target.placement);
    assert m in PostMoveMembership(siblings, m);
    assert m in multiset(WantedOrder(root, m, target));
  }

  // The way home is open and asks for the old order.
  lemma {:induction false} BackPlaces(root: Node, r: Node, m: Id, dest: Id, order: seq<Id>) returns (home: Node)
    requires UniqueIds(root) && Movable(root, m, dest) && MovedTable(root, r, m, dest, order) && m in order
    requires Others(order, m) == Others(Ids(FindNode(dest, root).value.kind.kids), m)
    ensures home == NodeAt(root, FirstParent(m, root).value) && Home(root, m).parentId == home.id
    ensures MoveOp(r, m, Home(root, m)).Ok? && WantedOrder(r, m, Home(root, m)) == Ids(home.kind.kids)
    ensures Movable(r, m, home.id)
    ensures RowOf(FindNode(home.id, r).value).(kids := Ids(home.kind.kids)) == RowOf(home)
  {
    home := BackMovable(root, r, m, dest, order);
    BackOrder(root, m, Ids(FindNode(home.id, r).value.kind.kids));
    CanPlaceMeans(r, m, Home(root, m));
  }

  // Moving a node and moving it back gives the tree back.
  lemma {:induction false} MoveBack(root: Node, m: Id, target: Target, r: Node)
    requires UniqueIds(root) && MoveOp(root, m, target).Ok?
    requires ApplyOne(MoveOp(root, m, target).value, root) == Ok(r)
    ensures FirstParent(m, root).Some?
    ensures MoveOp(r, m, Home(root, m)).Ok?
    ensures ApplyOne(MoveOp(r, m, Home(root, m)).value, r) == Ok(root)
  {
    var moved := MoveOpTable(root, m, target);
    var dest, order := target.parentId, WantedOrder(root, m, target);
    WantedHas(root, m, target);
    var home := BackPlaces(root, r, m, dest, order);
    var back := MoveOpTable(r, m, Home(root, m));
    var q := MovedHome(root, r, m, dest, order);
    HomeRowBack(root, m, RowOf(FindNode(home.id, r).value), back);
    if dest != home.id {
      DestRowBack(root, m, dest, order, RowOf(NodeAt(r, q)), back);
    }
    SameByParts(root, r, back, dest, home.id);
    TableIsTree(root, back);
  }

  lemma {:induction false} SameByParts(root: Node, r: Node, back: Node, dest: Id, home: Id)
    requires root.id == back.id
    requires forall x | x != dest && x != home :: Rows(x, r) == Rows(x, root) && Rows(x, back) == Rows(x, r)
    requires Rows(dest, back) == Rows(dest, root) && Rows(home, back) == Rows(home, root)
    ensures SameRows(root, back)
  {
  }

  // -- Placed inserts --------------------------------------------------------

  // The whole table after a placed insert.
  ghost predicate PlacedTable(root: Node, r: Node, child: Node, dest: Id, order: seq<Id>)
    requires FindNode(dest, root).Some?
  {
    && UniqueIds(r) && r.id == root.id && FindNode(child.id, r) == Some(child)
    && Rows(dest, r) == multiset{RowOf(FindNode(dest, root).value).(kids := order)}
    && (forall x | x != dest :: Rows(x, r) == Rows(x, root) + Rows(x, child))
  }

  lemma {:induction false} InsertLands(root: Node, child: Node, dest: Id) returns (r: Node)
    requires UniqueIds(root) && UniqueIds(child) && ApplyInsert(dest, child, root).Ok?
    ensures ApplyInsert(dest, child, root) == Ok(r) && FindNode(dest, root).Some?
    ensures PlacedTable(root, r, child, dest, Ids(FindNode(dest, root).value.kind.kids) + [child.id])
  {
    var p := FirstPath(dest, root).value;
    Together(child, root);
    r := AppendRows(root, p, child);
    DestRow(root, p, child, r);
    KidFound(r, p, |NodeAt(root, p).kind.kids|);
  }

  lemma {:induction false} Together(child: Node, root: Node)
    requires UniqueIds(root) && UniqueIds(child) && !SharesId(child, root)
    ensures forall x :: Occ(x, root) + Occ(x, child) <= 1
  {
    forall x ensures Occ(x, root) + Occ(x, child) <= 1 {
      assert Occ(x, root) <= 1 && Occ(x, child) <= 1;
      if Occ(x, child) >= 1 { Disjoint(child, root, x); }
    }
  }

  function PlacedOrder(root: Node, child: Node, target: Target): seq<Id>
    requires PlaceOp(root, child, target).Ok?
  {
    Reposition(ContainerChildren(root, target.parentId).value + [child.id], child.id, target.placement).value
  }

  // A placed insert applies, puts the child where asked among the untouched siblings, and
  // adds the child's rows to a table otherwise unchanged.
  lemma {:induction false} PlaceOpLands(root: Node, child: Node, target: Target) returns (r: Node)
    requires UniqueIds(root) && UniqueIds(child) && PlaceOp(root, child, target).Ok?
    ensures FindNode(target.parentId, root).Some?
    ensures ApplyOne(PlaceOp(root, child, target).value, root) == Ok(r)
    ensures PlacedTable(root, r, child, target.parentId, PlacedOrder(root, child, target))
    ensures Others(PlacedOrder(root, child, target), child.id) == Ids(FindNode(target.parentId, root).value.kind.kids)
    ensures Stands(
      PlacedOrder(root, child, target), Ids(FindNode(target.parentId, root).value.kind.kids), child.id,
      target.placement)
    ensures IsOrdered(
      PlaceOp(root, child, target).value, InsertChild(target.parentId, child), child.id, target.parentId,
      PlacedOrder(root, child, target))
  {
    var dest := target.parentId;
    var row, siblings := RowOf(FindNode(dest, root).value), Ids(FindNode(dest, root).value.kind.kids);
    var wanted := PlacedOrder(root, child, target);
    var inserted := InsertLands(root, child, dest);
    NewSibling(root, child, dest);
    InsertedOrder(siblings, child.id, target.placement);
    KidIdsDistinct(root, FirstPath(dest, root).value);
    AppendedOthers(siblings, child.id);
    PlacedStands(siblings, siblings + [child.id], child.id, target.placement);
    OthersNone(siblings, child.id);
    OrderedIs(InsertChild(dest, child), child.id, dest, siblings + [child.id], target.placement);
    InsertStep(root, child, dest);
    r := OrderedLands(root, InsertChild(dest, child), inserted, dest, row, siblings + [child.id], wanted);
    assert child.id in siblings + [child.id];
  }

  lemma {:induction false} AppendedOthers(siblings: seq<Id>, x: Id)
    ensures Others(siblings + [x], x) == Others(siblings, x)
  {
    OthersConcat(siblings, [x], x);
    assert Others([x], x) == [] && Others(siblings, x) + [] == Others(siblings, x);
  }

  lemma {:induction false} InsertStep(root: Node, child: Node, dest: Id)
    ensures ApplyOne(InsertChild(dest, child), root) == ApplyInsert(dest, child, root)
  {
  }

  lemma {:induction false} NewSibling(root: Node, child: Node, dest: Id)
    requires !SharesId(child, root) && FindNode(dest, root).Some?
    ensures child.id !in Ids(FindNode(dest, root).value.kind.kids)
  {
    var p := FirstPath(dest, root).value;
    var d := NodeAt(root, p);
    if child.id in Ids(d.kind.kids) {
      var i :| 0 <= i < |d.kind.kids| && Ids(d.kind.kids)[i] == child.id;
      KidOcc(d, i);
      OccAt(child.id, root, p);
      Disjoint(child, root, child.id);
      assert false;
    }
  }

  lemma {:induction false} InsertedOrder(siblings: seq<Id>, x: Id, placement: Placement)
    requires x !in siblings && Reposition(siblings + [x], x, placement).Ok?
    ensures var wanted := Reposition(siblings + [x], x, placement).value;
      multiset(siblings + [x]) == multiset(wanted) && Others(wanted, x) == siblings
  {
    OthersNone(siblings, x);
    OthersConcat(siblings, [x], x);
    assert Others([x], x) == [] && siblings + [] == siblings;
    RepositionMeans(siblings + [x], x, placement);
  }

  // Under the guards the op is refused only for the limits.
  lemma {:induction false} PlaceOpGuarded(root: Node, child: Node, target: Target)
    requires UniqueIds(root) && UniqueIds(child) && PlaceOp(root, child, target).Ok?
    ensures var op := PlaceOp(root, child, target).value;
      ApplyOne(op, root).Ok? && (Apply(op, root).Ok? <==> WithinLimits(ApplyOne(op, root).value))
  {
    var r := PlaceOpLands(root, child, target);
    PlaceGuards(PlaceOp(root, child, target).value, target.parentId, child, root);
  }

  lemma {:induction false} PlaceGuards(op: Op, dest: Id, child: Node, root: Node)
    requires ApplyOne(op, root).Ok? && UniqueIds(ApplyOne(op, root).value)
    requires op == InsertChild(dest, child)
      || exists w :: op == Batch([InsertChild(dest, child), ReorderChildren(dest, w)])
    ensures Apply(op, root).Ok? <==> WithinLimits(ApplyOne(op, root).value)
  {
    var r := ApplyOne(op, root).value;
    if op.Batch? {
      assert OpCanGrow(op.ops[0]);
    } else {
      assert InsertedNodes(op) == [child];
      assert OpCanGrow(op);
    }
    forall i, id | 0 <= i < |InsertedNodes(op)| && id in AllIds(InsertedNodes(op)[i]) ensures Occ(id, r) <= 1 {
    }
  }

  // Removing what was placed gives the tree back.
  lemma {:induction false} PlaceUndo(root: Node, child: Node, target: Target, r: Node)
    requires UniqueIds(root) && UniqueIds(child) && PlaceOp(root, child, target).Ok?
    requires ApplyOne(PlaceOp(root, child, target).value, root) == Ok(r)
    ensures ApplyRemove(child.id, r) == Ok(root)
  {
    var placed := PlaceOpLands(root, child, target);
    var dest, order := target.parentId, PlacedOrder(root, child, target);
    var d := FindNode(dest, root).value;
    var q := RowOfId(r, dest, RowOf(d).(kids := order));
    IsLayoutRow(NodeAt(r, q), d);
    assert Ids(NodeAt(r, q).kind.kids) == order;
    assert child.id in order by {
      RepositionMeans(ContainerChildren(root, dest).value + [child.id], child.id, target.placement);
      assert child.id in multiset(order);
    }
    Undone(root, child, dest, order, r, q);
  }

  lemma {:induction false} Undone(root: Node, child: Node, dest: Id, order: seq<Id>, r: Node, q: Path)
    requires UniqueIds(root) && FindNode(dest, root).Some? && PlacedTable(root, r, child, dest, order)
    requires ValidPath(r, q) && NodeAt(r, q).id == dest && IsLayout(NodeAt(r, q)) && child.id in order
    requires RowOf(NodeAt(r, q)) == RowOf(FindNode(dest, root).value).(kids := order)
    requires Others(order, child.id) == Ids(FindNode(dest, root).value.kind.kids)
    ensures ApplyRemove(child.id, r) == Ok(root)
  {
    var n := NodeAt(r, q);
    assert Ids(n.kind.kids) == order;
    FirstParentComplete(child.id, r, q);
    var p, i := Seated(r, child.id);
    if p != q {
      NotTwoParents(r, p, i, q);
      assert false;
    }
    var out := RemoveRows(r, q, i);
    RowWithKids(n, n.kind.kids[..i] + n.kind.kids[i + 1..]);
    UniqueRow(out, q);
    UndoneRows(root, child, dest, r, out);
    TableIsTree(root, out);
  }

  lemma {:induction false} UndoneRows(root: Node, child: Node, dest: Id, r: Node, out: Node)
    requires UniqueIds(root) && FindNode(dest, root).Some? && out.id == root.id
    requires forall x | x != dest :: Rows(x, r) == Rows(x, root) + Rows(x, child)
    requires forall x | x != dest :: Rows(x, out) + Rows(x, child) == Rows(x, r)
    requires var d := FindNode(dest, root).value; Rows(dest, out) == multiset{RowOf(d).(kids := Ids(d.kind.kids))}
    ensures SameRows(root, out)
  {
    var d := FirstPath(dest, root).value;
    UniqueRow(root, d);
    forall x ensures Rows(x, out) == Rows(x, root) {
      if x != dest {
        Gained(Rows(x, out), Rows(x, root), Rows(x, child), multiset{});
      } else {
        assert RowOf(NodeAt(root, d)).(kids := Ids(NodeAt(root, d).kind.kids)) == RowOf(NodeAt(root, d));
      }
    }
  }

  // -- Nudges ----------------------------------------------------------------

  function Exchanged(ids: seq<Id>, i: nat, j: nat): seq<Id>
    requires i < |ids| && j < |ids|
  {
    ids[i := ids[j]][j := ids[i]]
  }

  // Everything about a tree whose node at `y` had its children reordered.
  ghost predicate Reshuffled(root: Node, r: Node, y: Id, order: seq<Id>) {
    && UniqueIds(r) && r.id == root.id && FindNode(y, root).Some?
    && Rows(y, r) == multiset{RowOf(FindNode(y, root).value).(kids := order)}
    && (forall x | x != y :: Rows(x, r) == Rows(x, root))
  }

  lemma {:induction false} LastIndexAt(s: seq<Id>, j: nat)
    requires j < |s| && s[j] !in s[j + 1..]
    ensures LastIndexOf(s, s[j]) == j
    decreases |s|
  {
    var last := |s| - 1;
    if j < last {
      assert s[last] in s[j + 1..];
      assert s[..last][j + 1..] <= s[j + 1..];
      LastIndexAt(s[..last], j);
    }
  }

  lemma {:induction false} ReorderGuards(dest: Id, order: seq<Id>, root: Node)
    ensures Apply(ReorderChildren(dest, order), root) == ApplyReorder(dest, order, root)
  {
    var op := ReorderChildren(dest, order);
    ReorderIs(op, root);
    ReorderUncharged(op);
  }

  lemma {:induction false} ReorderUncharged(op: Op)
    requires op.ReorderChildren?
    ensures InsertedNodes(op) == [] && !OpCanGrow(op)
  {
  }

  // The op a nudge becomes, once the node's seat is known.
  lemma {:induction false} NudgeIs(root: Node, x: Id, delta: int, p: Path, i: nat)
    requires root.id != x && FirstParent(x, root) == Some(p) && ValidPath(root, p)
    requires i < |NodeAt(root, p).kind.kids| && Ids(NodeAt(root, p).kind.kids)[i] == x
    requires x !in Ids(NodeAt(root, p).kind.kids)[i + 1..]
    ensures NudgeOp(root, x, delta) ==
      if 0 <= i + delta < |NodeAt(root, p).kind.kids|
      then Ok(ReorderChildren(NodeAt(root, p).id, Exchanged(Ids(NodeAt(root, p).kind.kids), i, i + delta)))
      else Err(NudgeOutOfRange)
  {
    LastIndexAt(Ids(NodeAt(root, p).kind.kids), i);
  }

  lemma {:induction false} LastOfKids(root: Node, p: Path, i: nat)
    requires UniqueIds(root) && ValidPath(root, p) && i < |NodeAt(root, p).kind.kids|
    ensures NodeAt(root, p).kind.kids[i].id !in Ids(NodeAt(root, p).kind.kids)[i + 1..]
  {
    DistinctKids(root, p);
  }

  lemma {:induction false} Shuffle(root: Node, p: Path, order: seq<Id>) returns (r: Node)
    requires UniqueIds(root) && ValidPath(root, p) && IsLayout(NodeAt(root, p))
    requires SameIdMultiset(NodeAt(root, p).kind.kids, order)
    ensures Apply(ReorderChildren(NodeAt(root, p).id, order), root) == Ok(r)
    ensures Reshuffled(root, r, NodeAt(root, p).id, order)
  {
    r := ReorderRows(root, p, order);
    UniqueRow(r, p);
    UniqueRow(root, p);
    ReorderGuards(NodeAt(root, p).id, order, root);
  }

  // A tree whose node at `p` had its children listed in another order.
  ghost predicate Nudged(root: Node, r: Node, p: Path, order: seq<Id>) {
    && UniqueIds(root) && ValidPath(root, p) && IsLayout(NodeAt(root, p))
    && multiset(order) == multiset(Ids(NodeAt(root, p).kind.kids))
    && Reshuffled(root, r, NodeAt(root, p).id, order)
  }

  // The two lists differ in having two places exchanged.
  ghost predicate ExchangeOf(a: seq<Id>, i: nat, j: nat, b: seq<Id>) {
    && i < |a| && j < |a| && |a| == |b| && b[i] == a[j] && b[j] == a[i]
    && forall k | 0 <= k < |a| && k != i && k != j :: b[k] == a[k]
  }

  lemma {:induction false} ExchangeIs(a: seq<Id>, i: nat, j: nat, b: seq<Id>)
    requires i < |a| && j < |a|
    ensures ExchangeOf(a, i, j, b) <==> b == Exchanged(a, i, j)
  {
  }

  // A nudge op applies, under the guards too, and exchanges the two siblings.
  lemma {:induction false} NudgeLands(root: Node, x: Id, delta: int, op: Op)
    returns (p: Path, i: nat, j: nat, order: seq<Id>, r: Node)
    requires UniqueIds(root) && NudgeOp(root, x, delta) == Ok(op)
    ensures j == i + delta && Apply(op, root) == Ok(r)
    ensures Nudged(root, r, p, order) && ExchangeOf(Ids(NodeAt(root, p).kind.kids), i, j, order) && order[j] == x
  {
    p, i, j := NudgeSeat(root, x, delta, op);
    var ids := Ids(NodeAt(root, p).kind.kids);
    order := Exchanged(ids, i, j);
    ExchangedPermutes(ids, i, j);
    ExchangeIs(ids, i, j, order);
    r := Shuffle(root, p, order);
  }

  // The seat of a nudged node, the one it goes to, and the op that exchanges them.
  lemma {:induction false} NudgeSeat(root: Node, x: Id, delta: int, op: Op) returns (p: Path, i: nat, j: nat)
    requires UniqueIds(root) && NudgeOp(root, x, delta) == Ok(op)
    ensures ValidPath(root, p) && IsLayout(NodeAt(root, p)) && j == i + delta
    ensures var ids := Ids(NodeAt(root, p).kind.kids);
      && i < |ids| && j < |ids| && ids[i] == x
      && op == ReorderChildren(NodeAt(root, p).id, Exchanged(ids, i, j))
  {
    p, i := Seated(root, x);
    LastOfKids(root, p, i);
    NudgeIs(root, x, delta, p, i);
    j := i + delta;
  }

  lemma {:induction false} ExchangedPermutes(ids: seq<Id>, i: nat, j: nat)
    requires i < |ids| && j < |ids|
    ensures multiset(Exchanged(ids, i, j)) == multiset(ids)
  {
  }

  // A nudge of `a` is accepted and leads to `b`.
  ghost predicate NudgesTo(a: Node, x: Id, delta: int, b: Node) {
    exists op :: NudgeOp(a, x, delta) == Ok(op) && Apply(op, a) == Ok(b)
  }

  // Nudging a node back by the same distance gives the tree back.
  lemma {:induction false} NudgeBack(root: Node, x: Id, delta: int, r: Node)
    requires UniqueIds(root) && NudgesTo(root, x, delta, r)
    ensures NudgesTo(r, x, -delta, root)
  {
    var p, i, j, order := NudgedFrom(root, x, delta, r);
    NudgeReturns(root, x, delta, r, p, i, j, order);
  }

  ghost predicate Swapped(root: Node, x: Id, delta: int, r: Node, p: Path, i: nat, j: nat, order: seq<Id>) {
    && Nudged(root, r, p, order) && j == i + delta
    && ExchangeOf(Ids(NodeAt(root, p).kind.kids), i, j, order) && order[j] == x
  }

  lemma {:induction false} NudgedFrom(root: Node, x: Id, delta: int, r: Node)
    returns (p: Path, i: nat, j: nat, order: seq<Id>)
    requires UniqueIds(root) && NudgesTo(root, x, delta, r)
    ensures Swapped(root, x, delta, r, p, i, j, order)
  {
    var op :| NudgeOp(root, x, delta) == Ok(op) && Apply(op, root) == Ok(r);
    var moved;
    p, i, j, order, moved := NudgeLands(root, x, delta, op);
  }

  lemma {:induction false} NudgeReturns(
    root: Node, x: Id, delta: int, r: Node, p: Path, i: nat, j: nat, order: seq<Id>)
    requires Swapped(root, x, delta, r, p, i, j, order)
    ensures NudgesTo(r, x, -delta, root)
  {
    var back := ReturnOp(root, x, delta, r, p, i, j, order);
    ReturnRun(root, r, p, order, back);
  }

  lemma {:induction false} ReturnOp(
    root: Node, x: Id, delta: int, r: Node, p: Path, i: nat, j: nat, order: seq<Id>) returns (back: Op)
    requires Swapped(root, x, delta, r, p, i, j, order)
    ensures Nudged(root, r, p, order) && NudgeOp(r, x, -delta) == Ok(back)
    ensures back == ReorderChildren(NodeAt(root, p).id, Ids(NodeAt(root, p).kind.kids))
  {
    var ids := Ids(NodeAt(root, p).kind.kids);
    back := ReorderChildren(NodeAt(root, p).id, ids);
    var q := NudgedHome(root, r, p, order);
    NudgedSeat(r, x, q, j);
    assert j + -delta == i;
    NudgeIs(r, x, -delta, q, j);
    assert ExchangeOf(order, j, i, ids);
    ExchangeIs(order, j, i, ids);
  }

  lemma {:induction false} ReturnRun(root: Node, r: Node, p: Path, order: seq<Id>, back: Op)
    requires Nudged(root, r, p, order)
    requires back == ReorderChildren(NodeAt(root, p).id, Ids(NodeAt(root, p).kind.kids))
    ensures Apply(back, r) == Ok(root)
  {
    var q := NudgedHome(root, r, p, order);
    var back := Shuffle(r, q, Ids(NodeAt(root, p).kind.kids));
    Restored(root, r, back, p, q);
  }

  lemma {:induction false} NudgedHome(root: Node, r: Node, p: Path, order: seq<Id>) returns (q: Path)
    requires UniqueIds(root) && ValidPath(root, p) && IsLayout(NodeAt(root, p))
    requires Reshuffled(root, r, NodeAt(root, p).id, order)
    ensures ValidPath(r, q) && IsLayout(NodeAt(r, q)) && NodeAt(r, q).id == NodeAt(root, p).id
    ensures Ids(NodeAt(r, q).kind.kids) == order && FindNode(NodeAt(r, q).id, r) == Some(NodeAt(r, q))
    ensures RowOf(NodeAt(r, q)) == RowOf(NodeAt(root, p)).(kids := order)
  {
    D.PathOfId(root, p);
    q := RowOfId(r, NodeAt(root, p).id, RowOf(NodeAt(root, p)).(kids := order));
    IsLayoutRow(NodeAt(r, q), NodeAt(root, p));
    assert RowOf(NodeAt(r, q)).kids == order;
  }

  lemma {:induction false} Restored(root: Node, r: Node, back: Node, p: Path, q: Path)
    requires UniqueIds(root) && ValidPath(root, p) && ValidPath(r, q)
    requires r.id == root.id && NodeAt(r, q).id == NodeAt(root, p).id
    requires forall x | x != NodeAt(root, p).id :: Rows(x, r) == Rows(x, root)
    requires RowOf(NodeAt(r, q)).(kids := Ids(NodeAt(root, p).kind.kids)) == RowOf(NodeAt(root, p))
    requires FindNode(NodeAt(r, q).id, r) == Some(NodeAt(r, q))
    requires Reshuffled(r, back, NodeAt(r, q).id, Ids(NodeAt(root, p).kind.kids))
    ensures back == root
  {
    UniqueRow(root, p);
    assert Rows(NodeAt(root, p).id, back) == Rows(NodeAt(root, p).id, root);
    TableIsTree(root, back);
  }

  lemma {:induction false} NudgedSeat(r: Node, x: Id, q: Path, j: nat)
    requires UniqueIds(r) && ValidPath(r, q) && IsLayout(NodeAt(r, q))
    requires j < |NodeAt(r, q).kind.kids| && NodeAt(r, q).kind.kids[j].id == x
    ensures FirstParent(x, r) == Some(q) && r.id != x
    ensures x !in Ids(NodeAt(r, q).kind.kids)[j + 1..]
  {
    D.ParentOfKid(r, q, j);
    LastOfKids(r, q, j);
  }
}
