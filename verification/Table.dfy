// A tree read as a table: for every id, the nodes that hold it, each with its own content
// and the ids in its child positions. The table of a tree without repeats is the tree.
module Table {
  import opened Wrappers
  import opened Tree

  // A node with its sub-nodes reduced to their ids.
  datatype Row = Row(own: Node, kids: seq<Id>, onLoading: Option<Id>, onEmpty: Option<Id>)

  function IdOf(o: Option<Node>): Option<Id> {
    match o case None => None case Some(n) => Some(n.id)
  }

  function RowOf(n: Node): Row {
    var bare := n.(kind := n.kind.(kids := []));
    match n.state
    case NoState => Row(bare, Ids(n.kind.kids), None, None)
    case State(own, onLoading, onEmpty) =>
      Row(bare.(state := State(own, None, None)), Ids(n.kind.kids), IdOf(onLoading), IdOf(onEmpty))
  }

  function Rows(x: Id, n: Node): multiset<Row>
    decreases Size(n), 0
  {
    SlotSizes(n);
    (if n.id == x then multiset{RowOf(n)} else multiset{}) + RowsSeq(x, Slots(n))
  }

  function RowsSeq(x: Id, s: seq<Node>): multiset<Row>
    decreases SizeSeq(s), 1
  {
    if s == [] then multiset{} else Rows(x, s[0]) + RowsSeq(x, s[1..])
  }

  lemma {:induction false} RowsCount(x: Id, n: Node)
    ensures |Rows(x, n)| == Occ(x, n)
    decreases Size(n), 0
  {
    SlotSizes(n);
    RowsSeqCount(x, Slots(n));
  }

  lemma {:induction false} RowsSeqCount(x: Id, s: seq<Node>)
    ensures |RowsSeq(x, s)| == OccSeq(x, s)
    decreases SizeSeq(s), 1
  {
    if s != [] {
      RowsCount(x, s[0]);
      RowsSeqCount(x, s[1..]);
    }
  }

  lemma {:induction false} RowsConcat(x: Id, s: seq<Node>, t: seq<Node>)
    ensures RowsSeq(x, s + t) == RowsSeq(x, s) + RowsSeq(x, t)
  {
    if s == [] {
      assert s + t == t;
    } else {
      assert (s + t)[1..] == s[1..] + t;
      RowsConcat(x, s[1..], t);
    }
  }

  lemma {:induction false} RowsSplit(x: Id, s: seq<Node>, i: nat)
    requires i < |s|
    ensures RowsSeq(x, s) == RowsSeq(x, s[..i]) + Rows(x, s[i]) + RowsSeq(x, s[i + 1..])
  {
    assert s == s[..i] + ([s[i]] + s[i + 1..]);
    RowsConcat(x, s[..i], [s[i]] + s[i + 1..]);
    assert ([s[i]] + s[i + 1..])[1..] == s[i + 1..];
  }

  lemma {:induction false} RowsUpdate(x: Id, s: seq<Node>, i: nat, c: Node)
    requires i < |s|
    ensures RowsSeq(x, s[i := c]) + Rows(x, s[i]) == RowsSeq(x, s) + Rows(x, c)
  {
    RowsSplit(x, s, i);
    RowsSplit(x, s[i := c], i);
    assert s[i := c][..i] == s[..i] && s[i := c][i + 1..] == s[i + 1..];
  }

  lemma {:induction false} RowWithSlot(n: Node, i: nat, c: Node)
    requires i < |Slots(n)| && c.id == Slots(n)[i].id
    ensures RowOf(WithSlot(n, i, c)) == RowOf(n)
  {
    if i < |n.kind.kids| {
      assert Ids(n.kind.kids[i := c]) == Ids(n.kind.kids);
    }
  }

  lemma {:induction false} RowsSlot(x: Id, n: Node, i: nat, c: Node)
    requires i < |Slots(n)| && c.id == Slots(n)[i].id
    ensures Rows(x, WithSlot(n, i, c)) + Rows(x, Slots(n)[i]) == Rows(x, n) + Rows(x, c)
  {
    RowWithSlot(n, i, c);
    RowsUpdate(x, Slots(n), i, c);
    var head := if n.id == x then multiset{RowOf(n)} else multiset{};
    SameHead(head, RowsSeq(x, Slots(n)[i := c]), Rows(x, Slots(n)[i]), RowsSeq(x, Slots(n)), Rows(x, c));
  }

  lemma {:induction false} SameHead(
      h: multiset<Row>, a: multiset<Row>, b: multiset<Row>, c: multiset<Row>, d: multiset<Row>)
    requires a + b == c + d
    ensures h + a + b == h + c + d
  {
    assert h + a + b == h + (a + b) && h + c + d == h + (c + d);
  }

  lemma {:induction false} Chain(
    whole: multiset<Row>, whole': multiset<Row>, slot: multiset<Row>, slot': multiset<Row>,
    inner: multiset<Row>, inner': multiset<Row>)
    requires whole' + slot == whole + slot' && slot' + inner == slot + inner'
    ensures whole' + inner == whole + inner'
  {
    assert (whole' + inner) + slot == (whole' + slot) + inner;
    assert (whole + slot') + inner == whole + (slot' + inner);
    assert whole + (slot + inner') == (whole + inner') + slot;
    assert ((whole' + inner) + slot) - slot == ((whole + inner') + slot) - slot;
    assert ((whole' + inner) + slot) - slot == whole' + inner;
    assert ((whole + inner') + slot) - slot == whole + inner';
  }

  // Rewriting a sub-node under the same id changes the table by that sub-node's part.
  lemma {:induction false} RowsPut(x: Id, n: Node, p: Path, m: Node)
    requires ValidPath(n, p) && m.id == NodeAt(n, p).id
    ensures Rows(x, Put(n, p, m)) + Rows(x, NodeAt(n, p)) == Rows(x, n) + Rows(x, m)
    decreases |p|
  {
    if p == [] {
      assert Rows(x, m) + Rows(x, n) == Rows(x, n) + Rows(x, m);
    } else {
      var slot, slot' := Slots(n)[p[0]], Put(Slots(n)[p[0]], p[1..], m);
      RowsPut(x, slot, p[1..], m);
      RowsSlot(x, n, p[0], slot');
      Chain(Rows(x, n), Rows(x, Put(n, p, m)), Rows(x, slot), Rows(x, slot'), Rows(x, NodeAt(n, p)), Rows(x, m));
    }
  }

  lemma {:induction false} RowsAt(x: Id, n: Node, p: Path)
    requires ValidPath(n, p)
    ensures Rows(x, NodeAt(n, p)) <= Rows(x, n)
    decreases |p|
  {
    if p != [] {
      RowsAt(x, Slots(n)[p[0]], p[1..]);
      RowsSplit(x, Slots(n), p[0]);
    }
  }

  lemma {:induction false} RowAt(n: Node, p: Path)
    requires ValidPath(n, p)
    ensures RowOf(NodeAt(n, p)) in Rows(NodeAt(n, p).id, n)
  {
    RowsAt(NodeAt(n, p).id, n, p);
  }

  // -- The table is the tree -------------------------------------------------

  ghost predicate SameRows(s: Node, t: Node) {
    s.id == t.id && forall x :: Rows(x, s) == Rows(x, t)
  }

  lemma {:induction false} OneRow(m: multiset<Row>, a: Row, b: Row)
    requires |m| <= 1 && a in m && b in m
    ensures a == b
  {
    var rest := m - multiset{a};
    assert |rest| == |m| - 1;
    assert rest == multiset{};
    assert a != b ==> rest[b] == m[b];
  }

  lemma {:induction false} RowSlots(a: Node, b: Node)
    requires RowOf(a) == RowOf(b)
    ensures |Slots(a)| == |Slots(b)| && forall i | 0 <= i < |Slots(a)| :: Slots(a)[i].id == Slots(b)[i].id
  {
    assert |Ids(a.kind.kids)| == |Ids(b.kind.kids)|;
    forall i | 0 <= i < |Slots(a)| ensures Slots(a)[i].id == Slots(b)[i].id {
      if i < |a.kind.kids| {
        assert Ids(a.kind.kids)[i] == Ids(b.kind.kids)[i];
      }
    }
  }

  lemma {:induction false} SameRowAt(s: Node, t: Node, p: Path)
    requires SameRows(s, t) && UniqueIds(s)
    requires ValidPath(s, p) && ValidPath(t, p) && NodeAt(s, p).id == NodeAt(t, p).id
    ensures RowOf(NodeAt(s, p)) == RowOf(NodeAt(t, p))
  {
    var x := NodeAt(s, p).id;
    RowAt(s, p);
    RowAt(t, p);
    RowsCount(x, s);
    assert Occ(x, s) <= 1 && Rows(x, s) == Rows(x, t);
    OneRow(Rows(x, s), RowOf(NodeAt(s, p)), RowOf(NodeAt(t, p)));
  }

  lemma {:induction false} SamePlaces(s: Node, t: Node, p: Path)
    requires SameRows(s, t) && UniqueIds(s) && ValidPath(s, p)
    ensures ValidPath(t, p) && RowOf(NodeAt(s, p)) == RowOf(NodeAt(t, p))
    decreases |p|
  {
    if p != [] {
      var q, i := p[..|p| - 1], p[|p| - 1];
      assert p == q + [i];
      PathPrefix(s, q, [i]);
      PathConcat(s, q, [i]);
      SamePlaces(s, t, q);
      RowSlots(NodeAt(s, q), NodeAt(t, q));
      assert ValidPath(NodeAt(t, q), [i]);
      PathConcat(t, q, [i]);
      assert NodeAt(s, p) == Slots(NodeAt(s, q))[i] && NodeAt(t, p) == Slots(NodeAt(t, q))[i];
    }
    SameRowAt(s, t, p);
  }

  lemma {:induction false} SameEverywhere(s: Node, t: Node)
    requires forall p | ValidPath(s, p) :: ValidPath(t, p) && RowOf(NodeAt(s, p)) == RowOf(NodeAt(t, p))
    ensures s == t
    decreases Size(s)
  {
    assert ValidPath(s, []) && RowOf(s) == RowOf(t);
    RowSlots(s, t);
    SlotSizes(s);
    forall i | 0 <= i < |Slots(s)| ensures Slots(s)[i] == Slots(t)[i] {
      forall p | ValidPath(Slots(s)[i], p)
        ensures ValidPath(Slots(t)[i], p) && RowOf(NodeAt(Slots(s)[i], p)) == RowOf(NodeAt(Slots(t)[i], p))
      {
        assert ([i] + p)[1..] == p;
        assert ValidPath(s, [i] + p);
      }
      SameEverywhere(Slots(s)[i], Slots(t)[i]);
    }
    SlotsApart(s, t);
  }

  lemma {:induction false} SlotsApart(s: Node, t: Node)
    requires RowOf(s) == RowOf(t) && |Slots(s)| == |Slots(t)|
    requires forall i | 0 <= i < |Slots(s)| :: Slots(s)[i] == Slots(t)[i]
    ensures s == t
  {
    assert |s.kind.kids| == |Ids(s.kind.kids)| == |Ids(t.kind.kids)| == |t.kind.kids|;
    assert s.kind.kids == Slots(s)[..|s.kind.kids|] && t.kind.kids == Slots(t)[..|t.kind.kids|];
    assert Slots(s) == Slots(t);
    assert StateNodes(s.state) == Slots(s)[|s.kind.kids|..] && StateNodes(t.state) == Slots(t)[|t.kind.kids|..];
  }

  // Trees with one table, one of them without repeats, are one tree.
  lemma {:induction false} TableIsTree(s: Node, t: Node)
    requires SameRows(s, t) && UniqueIds(s)
    ensures s == t
  {
    forall p | ValidPath(s, p) ensures ValidPath(t, p) && RowOf(NodeAt(s, p)) == RowOf(NodeAt(t, p)) {
      SamePlaces(s, t, p);
    }
    SameEverywhere(s, t);
  }
}
