// When applying the batched diff of two trees to the first gives the second.
//
// The diff replaces a seat by removing the old subtree and inserting the new one, so
// the insert meets the ids the tree still holds at that moment. The round trip
// therefore holds exactly when no id of a new subtree still sits in an old subtree
// the script replaces later.
module DiffRoundTrip {
  import opened Wrappers
  import opened Tree
  import opened Ops
  import opened Diff
  import opened ApplySafety

  // -- Folding a script through the reducer ----------------------------------

  function Fold(ops: seq<Op>, t: Node): Option<Node> {
    if ops == [] then Some(t) else
    match ApplyOne(ops[0], t)
    case Err(_) => None
    case Ok(next) => Fold(ops[1..], next)
  }

  lemma {:induction false} FoldOne(op: Op, t: Node)
    ensures Fold([op], t) == match ApplyOne(op, t) case Err(_) => None case Ok(m) => Some(m)
  {
  }

  lemma {:induction false} FoldConcat(x: seq<Op>, y: seq<Op>, t: Node)
    ensures Fold(x + y, t) == match Fold(x, t) case None => None case Some(m) => Fold(y, m)
  {
    if x == [] {
      assert x + y == y;
    } else {
      assert (x + y)[1..] == x[1..] + y;
      match ApplyOne(x[0], t)
      case Err(_) =>
      case Ok(next) => FoldConcat(x[1..], y, next);
    }
  }

  lemma {:induction false} FoldIsBatch(ops: seq<Op>, done: nat, t: Node)
    ensures ApplySeq(ops, done, t).Ok? <==> Fold(ops, t).Some?
    ensures ApplySeq(ops, done, t).Ok? ==> ApplySeq(ops, done, t).value == Fold(ops, t).value
  {
    if ops != [] && ApplyOne(ops[0], t).Ok? {
      FoldIsBatch(ops[1..], done + 1, ApplyOne(ops[0], t).value);
    }
  }

  // -- Facets ----------------------------------------------------------------

  // The omitted-when-default form the decoder and the engine store.
  ghost predicate Trimmed(identity: Member -> string, members: Style) {
    forall k | k in members :: members[k] != identity(k)
  }

  ghost predicate CanonicalFacets(n: Node) {
    && (n.style.Some? ==> n.style.value != map[] && Trimmed(IdentityOf, n.style.value))
    && (n.access.Some? ==> n.access.value != map[])
  }

  ghost predicate Canonical(n: Node)
    decreases Size(n)
  {
    SlotSizes(n);
    CanonicalFacets(n) && forall i | 0 <= i < |Slots(n)| :: Canonical(Slots(n)[i])
  }

  // On trimmed records the materialised form, the kept members and the delta agree.
  lemma {:induction false} TrimmedAlgebra(identity: Member -> string, a: Style, b: Style)
    requires Trimmed(identity, a) && Trimmed(identity, b)
    ensures var moved := MovedFrom(RecordBy(identity, a), RecordBy(identity, b));
            && (moved == map[] ==> a == b)
            && KeptBy(identity, KeptBy(identity, RecordBy(identity, b))) == b
            && KeptBy(identity, a + moved) == b
  {
    var before, after := RecordBy(identity, a), RecordBy(identity, b);
    var moved := MovedFrom(before, after);
    KeptRecord(identity, a);
    KeptRecord(identity, b);
    assert KeptBy(identity, b) == b;
    if moved == map[] {
      forall k: Member ensures before[k] == after[k] {
        assert k !in moved;
      }
      assert before == after;
    }
  }

  lemma {:induction false} KeptRecord(identity: Member -> string, a: Style)
    requires Trimmed(identity, a)
    ensures KeptBy(identity, RecordBy(identity, a)) == a
  {
  }

  lemma {:induction false} StyleEditResult(a: Node, b: Node)
    requires CanonicalFacets(a) && CanonicalFacets(b)
    ensures Moved(a, b) == map[] ==> a.style == b.style
    ensures StoreStyle(a, Kept(StyleRecord(b))) == a.(style := b.style)
    ensures StoreStyle(a, StyleMembers(a) + Moved(a, b)) == a.(style := b.style)
  {
    TrimmedAlgebra(IdentityOf, StyleMembers(a), StyleMembers(b));
  }

  // One edit of the node at q.
  lemma {:induction false} EditAt(t: Node, q: Path, x: Id, rewrite: Node -> Node)
    requires UniqueIds(t) && ValidPath(t, q) && NodeAt(t, q).id == x
    ensures ApplyAt(x, t, rewrite) == Ok(Put(t, q, rewrite(NodeAt(t, q))))
  {
    PathOcc(t, q);
    UniquePath(t, q, FirstPath(x, t).value);
  }

  // Rewriting a node without touching id or slots leaves every count alone.
  lemma {:induction false} SameCounts(t: Node, q: Path, m: Node)
    requires ValidPath(t, q) && m.id == NodeAt(t, q).id && Slots(m) == Slots(NodeAt(t, q))
    ensures forall x :: Occ(x, Put(t, q, m)) == Occ(x, t)
  {
    forall x ensures Occ(x, Put(t, q, m)) == Occ(x, t) {
      OccPut(x, t, q, m);
    }
  }

  lemma {:induction false} UpdateStyleRun(t: Node, q: Path, x: Id, style: Style)
    requires UniqueIds(t) && ValidPath(t, q) && NodeAt(t, q).id == x
    ensures Fold([UpdateStyle(x, style)], t) == Some(Put(t, q, StoreStyle(NodeAt(t, q), style)))
  {
    EditAt(t, q, x, SetStyle(style));
    FoldOne(UpdateStyle(x, style), t);
  }

  lemma {:induction false} PatchStyleRun(t: Node, q: Path, x: Id, delta: Style)
    requires UniqueIds(t) && ValidPath(t, q) && NodeAt(t, q).id == x
    ensures Fold([PatchStyle(x, delta)], t)
         == Some(Put(t, q, StoreStyle(NodeAt(t, q), StyleMembers(NodeAt(t, q)) + delta)))
  {
    EditAt(t, q, x, MergeStyle(delta));
    FoldOne(PatchStyle(x, delta), t);
  }

  lemma {:induction false} UpdateAccessRun(t: Node, q: Path, x: Id, access: Fields)
    requires UniqueIds(t) && ValidPath(t, q) && NodeAt(t, q).id == x
    ensures Fold([UpdateAccessibility(x, access)], t) == Some(Put(t, q, StoreAccess(NodeAt(t, q), access)))
  {
    EditAt(t, q, x, SetAccess(access));
    FoldOne(UpdateAccessibility(x, access), t);
  }

  lemma {:induction false} NothingRun(t: Node, q: Path, m: Node)
    requires ValidPath(t, q) && m == NodeAt(t, q)
    ensures Fold([], t) == Some(Put(t, q, m))
  {
    PutSame(t, q);
  }

  lemma {:induction false} StyleRun(t: Node, q: Path, a: Node, b: Node)
    requires UniqueIds(t) && ValidPath(t, q) && NodeAt(t, q) == a && a.id == b.id
    requires CanonicalFacets(a) && CanonicalFacets(b)
    ensures Fold(StyleEdit(a, b), t) == Some(Put(t, q, a.(style := b.style)))
  {
    StyleEditResult(a, b);
    var moved := Moved(a, b);
    if moved == map[] {
      NothingRun(t, q, a.(style := b.style));
    } else if moved.Keys == StyleRecord(b).Keys {
      UpdateStyleRun(t, q, b.id, Kept(StyleRecord(b)));
    } else {
      PatchStyleRun(t, q, b.id, moved);
    }
  }

  lemma {:induction false} SameAccess(a: Node, b: Node)
    requires CanonicalFacets(a) && CanonicalFacets(b) && AccessRecord(a) == AccessRecord(b)
    ensures a.(access := b.access) == a
  {
  }

  lemma {:induction false} AccessStored(a: Node, b: Node)
    requires CanonicalFacets(b)
    ensures StoreAccess(a, AccessRecord(b)) == a.(access := b.access)
  {
  }

  lemma {:induction false} AccessRun(t: Node, q: Path, a: Node, b: Node)
    requires UniqueIds(t) && ValidPath(t, q) && NodeAt(t, q) == a && a.id == b.id
    requires CanonicalFacets(a) && CanonicalFacets(b)
    ensures Fold(AccessEdit(a, b), t) == Some(Put(t, q, a.(access := b.access)))
  {
    if AccessRecord(a) == AccessRecord(b) {
      SameAccess(a, b);
      NothingRun(t, q, a.(access := b.access));
    } else {
      AccessStored(a, b);
      UpdateAccessRun(t, q, b.id, AccessRecord(b));
    }
  }

  lemma {:induction false} TooltipRun(t: Node, q: Path, a: Node, b: Node)
    requires UniqueIds(t) && ValidPath(t, q) && NodeAt(t, q) == a && a.id == b.id
    ensures Fold(TooltipEdit(a, b), t) == Some(Put(t, q, a.(tooltip := b.tooltip)))
  {
    if a.tooltip == b.tooltip {
      assert a.(tooltip := b.tooltip) == a;
      PutSame(t, q);
    } else {
      EditAt(t, q, b.id, SetTooltip(b.tooltip));
      FoldOne(UpdateTooltip(b.id, b.tooltip), t);
    }
  }

  lemma {:induction false} FacetRun(t: Node, q: Path, a: Node, b: Node)
    requires UniqueIds(t) && ValidPath(t, q) && NodeAt(t, q) == a && a.id == b.id
    requires CanonicalFacets(a) && CanonicalFacets(b)
    ensures Fold(FacetEdits(a, b), t) == Some(Put(t, q, WithFacetsOf(a, b)))
    ensures UniqueIds(Put(t, q, WithFacetsOf(a, b)))
  {
    var a1 := a.(style := b.style);
    var t1 := Put(t, q, a1);
    StyleRun(t, q, a, b);
    FacetWrite(t, q, a1);
    OtherFacetsRun(t1, q, a1, b);
    PutPut(t, q, a1, WithFacetsOf(a, b));
    FacetWrite(t, q, WithFacetsOf(a, b));
    assert AccessEdit(a1, b) == AccessEdit(a, b) && TooltipEdit(a1, b) == TooltipEdit(a, b);
    FoldConcat(StyleEdit(a, b), AccessEdit(a, b) + TooltipEdit(a, b), t);
  }

  lemma {:induction false} OtherFacetsRun(t: Node, q: Path, a: Node, b: Node)
    requires UniqueIds(t) && ValidPath(t, q) && NodeAt(t, q) == a && a.id == b.id
    requires CanonicalFacets(a) && CanonicalFacets(b)
    ensures Fold(AccessEdit(a, b) + TooltipEdit(a, b), t)
         == Some(Put(t, q, a.(access := b.access, tooltip := b.tooltip)))
  {
    var a2 := a.(access := b.access);
    var t2 := Put(t, q, a2);
    AccessRun(t, q, a, b);
    FacetWrite(t, q, a2);
    TooltipRun(t2, q, a2, b);
    PutPut(t, q, a2, a2.(tooltip := b.tooltip));
    assert TooltipEdit(a2, b) == TooltipEdit(a, b);
    FoldConcat(AccessEdit(a, b), TooltipEdit(a, b), t);
  }

  lemma {:induction false} FacetWrite(t: Node, q: Path, m: Node)
    requires UniqueIds(t) && ValidPath(t, q)
    requires m.id == NodeAt(t, q).id && Slots(m) == Slots(NodeAt(t, q))
    ensures UniqueIds(Put(t, q, m)) && ValidPath(Put(t, q, m), q) && NodeAt(Put(t, q, m), q) == m
  {
    SameCounts(t, q, m);
    PutAt(t, q, m);
  }

  // -- One seat replaced -----------------------------------------------------

  lemma {:induction false} WithoutAt(s: seq<Node>, i: nat)
    requires i < |s| && DistinctIds(s)
    ensures Without(s, s[i].id) == s[..i] + s[i + 1..]
  {
    var t := s[1..];
    assert DistinctIds(t);
    if i == 0 {
      WithoutNone(t, s[0].id);
    } else {
      assert t[i - 1] == s[i];
      WithoutAt(t, i - 1);
      assert t[..i - 1] == s[1..i] && t[i..] == s[i + 1..];
      assert s[..i] == [s[0]] + s[1..i];
    }
  }

  lemma {:induction false} WithoutNone(s: seq<Node>, x: Id)
    requires forall i | 0 <= i < |s| :: s[i].id != x
    ensures Without(s, x) == s
  {
    if s != [] {
      WithoutNone(s[1..], x);
    }
  }

  // Naming the ids of a list in order, among the same nodes, gives that list.
  lemma {:induction false} ReorderedTo(kids: seq<Node>, want: seq<Node>)
    requires DistinctIds(kids) && multiset(kids) == multiset(want)
    ensures SameIdMultiset(kids, Ids(want)) && Reordered(kids, Ids(want)) == want
  {
    SameIds(kids, want);
    var r := Reordered(kids, Ids(want));
    forall k | 0 <= k < |want| ensures r[k] == want[k] {
      assert Ids(r)[k] == Ids(want)[k];
      assert want[k] in multiset(kids);
      var i :| 0 <= i < |kids| && kids[i] == r[k];
      var j :| 0 <= j < |kids| && kids[j] == want[k];
      assert kids[i].id == kids[j].id;
    }
  }

  lemma {:induction false} SameIds(s: seq<Node>, t: seq<Node>)
    requires multiset(s) == multiset(t)
    ensures multiset(Ids(s)) == multiset(Ids(t))
  {
    if s == [] {
      assert |multiset(t)| == 0;
    } else {
      var k := TakeOut(s, t);
      SameIds(s[1..], t[..k] + t[k + 1..]);
      IdsOut(t, k);
      IdsHead(s);
    }
  }

  lemma {:induction false} IdsHead(s: seq<Node>)
    requires s != []
    ensures multiset(Ids(s)) == multiset{s[0].id} + multiset(Ids(s[1..]))
  {
    assert Ids(s) == [s[0].id] + Ids(s[1..]);
  }

  lemma {:induction false} IdsOut(t: seq<Node>, k: nat)
    requires k < |t|
    ensures multiset(Ids(t)) == multiset{t[k].id} + multiset(Ids(t[..k] + t[k + 1..]))
  {
    var rest := t[..k] + t[k + 1..];
    assert Ids(rest) == Ids(t)[..k] + Ids(t)[k + 1..];
    assert Ids(t) == Ids(t)[..k] + ([t[k].id] + Ids(t)[k + 1..]);
  }

  lemma {:induction false} KidPath(t: Node, p: Path, i: nat)
    requires ValidPath(t, p) && i < |NodeAt(t, p).kind.kids|
    ensures ValidPath(t, p + [i]) && NodeAt(t, p + [i]) == NodeAt(t, p).kind.kids[i]
  {
    assert Slots(NodeAt(t, p))[i] == NodeAt(t, p).kind.kids[i];
    PathConcat(t, p, [i]);
  }

  lemma {:induction false} KidPut(t: Node, p: Path, i: nat, c: Node)
    requires ValidPath(t, p) && i < |NodeAt(t, p).kind.kids| && IsLayout(NodeAt(t, p))
    ensures ValidPath(t, p + [i])
    ensures Put(t, p + [i], c) == Put(t, p, WithKids(NodeAt(t, p), NodeAt(t, p).kind.kids[i := c]))
  {
    var n := NodeAt(t, p);
    KidPath(t, p, i);
    assert Slots(n)[i] == n.kind.kids[i];
    PutConcat(t, p, [i], c);
  }

  // On a unique tree the layout parent of a kid is the node it hangs under.
  lemma {:induction false} ParentOfKid(t: Node, p: Path, i: nat)
    requires UniqueIds(t) && ValidPath(t, p) && IsLayout(NodeAt(t, p)) && i < |NodeAt(t, p).kind.kids|
    ensures FirstParent(NodeAt(t, p).kind.kids[i].id, t) == Some(p)
    ensures t.id != NodeAt(t, p).kind.kids[i].id
  {
    var n := NodeAt(t, p);
    var x := n.kind.kids[i].id;
    KidPath(t, p, i);
    assert Ids(n.kind.kids)[i] == x;
    FirstParentComplete(x, t, p);
    var q := FirstParent(x, t).value;
    var j :| 0 <= j < |NodeAt(t, q).kind.kids| && Ids(NodeAt(t, q).kind.kids)[j] == x;
    KidPath(t, q, j);
    UniquePath(t, p + [i], q + [j]);
    assert (p + [i])[..|p|] == p && (q + [j])[..|q|] == q;
    if t.id == x {
      UniquePath(t, [], p + [i]);
      assert false;
    }
  }

  lemma {:induction false} PathOfId(t: Node, p: Path)
    requires UniqueIds(t) && ValidPath(t, p)
    ensures FirstPath(NodeAt(t, p).id, t) == Some(p)
  {
    PathOcc(t, p);
    UniquePath(t, p, FirstPath(NodeAt(t, p).id, t).value);
  }

  lemma {:induction false} RemoveRun(t: Node, p: Path, i: nat)
    requires UniqueIds(t) && ValidPath(t, p) && IsLayout(NodeAt(t, p)) && i < |NodeAt(t, p).kind.kids|
    ensures var n := NodeAt(t, p);
            ApplyRemove(n.kind.kids[i].id, t)
            == Ok(Put(t, p, WithKids(n, n.kind.kids[..i] + n.kind.kids[i + 1..])))
  {
    ParentOfKid(t, p, i);
    PathOfId(t, p);
    DistinctKids(t, p);
    WithoutAt(NodeAt(t, p).kind.kids, i);
  }

  // Nothing outside the subtree at q holds an id of `b`.
  ghost predicate Clear(t: Node, q: Path, b: Node)
    requires ValidPath(t, q)
  {
    forall x | Occ(x, b) >= 1 :: Occ(x, t) == Occ(x, NodeAt(t, q))
  }

  lemma {:induction false} ClearUnique(t: Node, q: Path, b: Node)
    requires UniqueIds(t) && UniqueIds(b) && ValidPath(t, q) && Clear(t, q, b)
    ensures UniqueIds(Put(t, q, b))
  {
    forall x ensures Occ(x, Put(t, q, b)) <= 1 {
      OccPut(x, t, q, b);
      OccAt(x, t, q);
      assert Occ(x, t) <= 1 && Occ(x, b) <= 1;
    }
  }

  // The counts of a tree whose child list changed.
  lemma {:induction false} KidsOcc(t: Node, p: Path, kids: seq<Node>, x: Id)
    requires ValidPath(t, p) && IsLayout(NodeAt(t, p))
    ensures Occ(x, Put(t, p, WithKids(NodeAt(t, p), kids)))
         == Occ(x, t) - OccSeq(x, NodeAt(t, p).kind.kids) + OccSeq(x, kids)
  {
    var n := NodeAt(t, p);
    OccPut(x, t, p, WithKids(n, kids));
    OccConcat(x, n.kind.kids, StateNodes(n.state));
    OccConcat(x, kids, StateNodes(n.state));
  }

  lemma {:induction false} OccCut(s: seq<Node>, i: nat, x: Id)
    requires i < |s|
    ensures OccSeq(x, s[..i] + s[i + 1..]) == OccSeq(x, s) - Occ(x, s[i])
  {
    OccSplit(x, s, i);
    OccConcat(x, s[..i], s[i + 1..]);
  }

  // After the remove: counts, and where the parent is.
  lemma {:induction false} AfterRemove(t: Node, p: Path, i: nat) returns (t1: Node, n1: Node)
    requires UniqueIds(t) && ValidPath(t, p) && IsLayout(NodeAt(t, p)) && i < |NodeAt(t, p).kind.kids|
    ensures var n := NodeAt(t, p);
            n1 == WithKids(n, n.kind.kids[..i] + n.kind.kids[i + 1..]) && t1 == Put(t, p, n1)
    ensures ApplyRemove(NodeAt(t, p).kind.kids[i].id, t) == Ok(t1)
    ensures UniqueIds(t1) && ValidPath(t1, p) && NodeAt(t1, p) == n1
    ensures forall x :: Occ(x, t1) == Occ(x, t) - Occ(x, NodeAt(t, p).kind.kids[i])
  {
    var n := NodeAt(t, p);
    n1 := WithKids(n, n.kind.kids[..i] + n.kind.kids[i + 1..]);
    t1 := Put(t, p, n1);
    RemoveRun(t, p, i);
    PutAt(t, p, n1);
    forall x ensures Occ(x, t1) == Occ(x, t) - Occ(x, n.kind.kids[i]) {
      KidsOcc(t, p, n.kind.kids[..i] + n.kind.kids[i + 1..], x);
      OccCut(n.kind.kids, i, x);
    }
    forall x ensures Occ(x, t1) <= 1 {
      assert Occ(x, t) <= 1;
    }
  }

  // With one subtree out of the tree, the way is clear when what is left shares no id with `b`.
  lemma {:induction false} ClearIsApart(t: Node, t1: Node, q: Path, b: Node)
    requires ValidPath(t, q) && forall x :: Occ(x, t1) == Occ(x, t) - Occ(x, NodeAt(t, q))
    ensures Clear(t, q, b) <==> !SharesId(b, t1)
  {
    if SharesId(b, t1) {
      var x :| x in AllIds(b) && x in AllIds(t1);
      OccIds(x, b);
      OccIds(x, t1);
      assert Occ(x, t) != Occ(x, NodeAt(t, q));
    } else {
      forall x | Occ(x, b) >= 1 ensures Occ(x, t) == Occ(x, NodeAt(t, q)) {
        Disjoint(b, t1, x);
      }
    }
  }

  // The insert goes through exactly when the way is clear.
  lemma {:induction false} InsertRun(t: Node, p: Path, i: nat, b: Node)
    requires UniqueIds(t) && ValidPath(t, p) && IsLayout(NodeAt(t, p)) && i < |NodeAt(t, p).kind.kids|
    requires ValidPath(t, p + [i])
    ensures var n := NodeAt(t, p);
            var rest := n.kind.kids[..i] + n.kind.kids[i + 1..];
            var t1 := Put(t, p, WithKids(n, rest));
            && ApplyRemove(n.kind.kids[i].id, t) == Ok(t1)
            && (Clear(t, p + [i], b) ==>
                  ApplyInsert(n.id, b, t1) == Ok(Put(t, p, WithKids(n, rest + [b]))))
            && (!Clear(t, p + [i], b) ==> ApplyInsert(n.id, b, t1).Err?)
  {
    var t1, n1 := AfterRemove(t, p, i);
    KidPath(t, p, i);
    ClearIsApart(t, t1, p + [i], b);
    PathOfId(t1, p);
    if !SharesId(b, t1) {
      PutPut(t, p, n1, WithKids(n1, n1.kind.kids + [b]));
    }
  }

  // Replacing a seat writes the new node there exactly when the way is clear.
  lemma {:induction false} SeatRun(t: Node, p: Path, i: nat, a: Node, b: Node)
    requires UniqueIds(t) && UniqueIds(b) && ValidPath(t, p) && IsLayout(NodeAt(t, p))
    requires i < |NodeAt(t, p).kind.kids| && NodeAt(t, p).kind.kids[i] == a && a.id == b.id
    requires ValidPath(t, p + [i])
    ensures var n := NodeAt(t, p);
            Fold(ReplaceSeat(a, b, Seat(n.id, i, Ids(n.kind.kids))), t)
            == if Clear(t, p + [i], b) then Some(Put(t, p + [i], b)) else None
  {
    var n := NodeAt(t, p);
    var seat := Seat(n.id, i, Ids(n.kind.kids));
    var rest := n.kind.kids[..i] + n.kind.kids[i + 1..];
    var t1 := Put(t, p, WithKids(n, rest));
    InsertRun(t, p, i, b);
    RemoveStep(a.id, [InsertChild(n.id, b)] + RestateOrder(seat), t, t1);
    if Clear(t, p + [i], b) {
      InsertStep(n.id, b, RestateOrder(seat), t1, Put(t, p, WithKids(n, rest + [b])));
      OrderRun(t, p, i, b, n, rest + [b], seat);
    } else {
      InsertStops(n.id, b, RestateOrder(seat), t1);
    }
  }

  lemma {:induction false} RemoveStep(x: Id, more: seq<Op>, t: Node, t1: Node)
    requires ApplyRemove(x, t) == Ok(t1)
    ensures Fold([RemoveNode(x)] + more, t) == Fold(more, t1)
  {
    FoldOne(RemoveNode(x), t);
    FoldConcat([RemoveNode(x)], more, t);
  }

  lemma {:induction false} InsertStep(x: Id, b: Node, more: seq<Op>, t: Node, t1: Node)
    requires ApplyInsert(x, b, t) == Ok(t1)
    ensures Fold([InsertChild(x, b)] + more, t) == Fold(more, t1)
  {
    assert ApplyOne(InsertChild(x, b), t) == ApplyInsert(x, b, t);
    FoldNext(InsertChild(x, b), more, t, t1);
  }

  lemma {:induction false} FoldNext(op: Op, more: seq<Op>, t: Node, t1: Node)
    requires ApplyOne(op, t) == Ok(t1)
    ensures Fold([op] + more, t) == Fold(more, t1)
  {
    assert ([op] + more)[1..] == more;
  }

  lemma {:induction false} InsertStops(x: Id, b: Node, more: seq<Op>, t: Node)
    requires ApplyInsert(x, b, t).Err?
    ensures Fold([InsertChild(x, b)] + more, t) == None
  {
    FoldOne(InsertChild(x, b), t);
    FoldConcat([InsertChild(x, b)], more, t);
  }

  lemma {:induction false} ReorderStep(x: Id, order: seq<Id>, t: Node, r: Node)
    requires ApplyReorder(x, order, t) == Ok(r)
    ensures Fold([ReorderChildren(x, order)], t) == Some(r)
  {
    FoldOne(ReorderChildren(x, order), t);
  }

  lemma {:induction false} OrderRun(t: Node, p: Path, i: nat, b: Node, n: Node, kids: seq<Node>, seat: Seat)
    requires UniqueIds(t) && UniqueIds(b) && ValidPath(t, p) && n == NodeAt(t, p) && IsLayout(n)
    requires i < |n.kind.kids| && n.kind.kids[i].id == b.id
    requires ValidPath(t, p + [i]) && Clear(t, p + [i], b)
    requires kids == n.kind.kids[..i] + n.kind.kids[i + 1..] + [b] && seat == Seat(n.id, i, Ids(n.kind.kids))
    ensures Fold(RestateOrder(seat), Put(t, p, WithKids(n, kids))) == Some(Put(t, p + [i], b))
  {
    if i == |n.kind.kids| - 1 {
      KidPut(t, p, i, b);
      LastOut(n.kind.kids, b);
    } else {
      RestateRun(t, p, i, b);
      ReorderStep(n.id, Ids(n.kind.kids), Put(t, p, WithKids(n, kids)), Put(t, p + [i], b));
    }
  }

  lemma {:induction false} LastOut(kids: seq<Node>, b: Node)
    requires kids != []
    ensures var i := |kids| - 1; kids[..i] + kids[i + 1..] + [b] == kids[i := b]
  {
  }

  // The tree between insert and restatement has the ids of the finished one.
  lemma {:induction false} AppendedUnique(t: Node, p: Path, i: nat, b: Node)
    requires UniqueIds(t) && UniqueIds(b) && ValidPath(t, p) && IsLayout(NodeAt(t, p))
    requires i < |NodeAt(t, p).kind.kids|
    requires ValidPath(t, p + [i]) && Clear(t, p + [i], b)
    ensures var n := NodeAt(t, p);
            UniqueIds(Put(t, p, WithKids(n, n.kind.kids[..i] + n.kind.kids[i + 1..] + [b])))
  {
    var n := NodeAt(t, p);
    var rest := n.kind.kids[..i] + n.kind.kids[i + 1..];
    KidPath(t, p, i);
    ClearUnique(t, p + [i], b);
    forall x ensures Occ(x, Put(t, p, WithKids(n, rest + [b]))) <= 1 {
      KidsOcc(t, p, rest + [b], x);
      OccCut(n.kind.kids, i, x);
      OccConcat(x, rest, [b]);
      OccPut(x, t, p + [i], b);
      assert Occ(x, Put(t, p + [i], b)) <= 1;
    }
  }

  lemma {:induction false} MovedLast(s: seq<Node>, i: nat, b: Node)
    requires i < |s|
    ensures multiset(s[..i] + s[i + 1..] + [b]) == multiset(s[i := b])
    ensures b.id == s[i].id ==> Ids(s[i := b]) == Ids(s)
  {
    assert s[i := b] == s[..i] + ([b] + s[i + 1..]);
  }

  // Restating the sibling order puts the inserted node back at its position.
  lemma {:induction false} RestateRun(t: Node, p: Path, i: nat, b: Node)
    requires UniqueIds(t) && UniqueIds(b) && ValidPath(t, p) && IsLayout(NodeAt(t, p))
    requires i < |NodeAt(t, p).kind.kids| && NodeAt(t, p).kind.kids[i].id == b.id
    requires ValidPath(t, p + [i]) && Clear(t, p + [i], b)
    ensures var n := NodeAt(t, p);
            var rest := n.kind.kids[..i] + n.kind.kids[i + 1..];
            ApplyReorder(n.id, Ids(n.kind.kids), Put(t, p, WithKids(n, rest + [b])))
            == Ok(Put(t, p + [i], b))
  {
    var n := NodeAt(t, p);
    var kids := n.kind.kids;
    var n2 := WithKids(n, kids[..i] + kids[i + 1..] + [b]);
    AppendedUnique(t, p, i, b);
    KidPut(t, p, i, b);
    PutAt(t, p, n2);
    PathOfId(Put(t, p, n2), p);
    DistinctKids(Put(t, p, n2), p);
    MovedLast(kids, i, b);
    ReorderedTo(n2.kind.kids, kids[i := b]);
    PutPut(t, p, n2, WithKids(n2, kids[i := b]));
  }

  // -- The seats a script replaces -------------------------------------------

  ghost predicate Matches(a: Node, b: Node, p: Path) {
    ValidPath(a, p) && ValidPath(b, p) && NodeAt(a, p).id == NodeAt(b, p).id
  }

  // The positions replaced whole, in script order; a root replaced whole is not a seat.
  function Seats(a: Node, b: Node, root: bool): (r: seq<Path>)
    requires a.id == b.id
    ensures forall k | 0 <= k < |r| :: Matches(a, b, r[k])
    decreases Size(a), 1, 0
  {
    if a == b || FacetsOnly(a, b) then []
    else if Recurses(a, b) then KidSeats(a, b, 0)
    else if root then [] else [[]]
  }

  function Prefixed(i: nat, ps: seq<Path>): (r: seq<Path>)
    ensures |r| == |ps| && forall k | 0 <= k < |ps| :: r[k] == [i] + ps[k]
  {
    seq(|ps|, k requires 0 <= k < |ps| => [i] + ps[k])
  }

  function KidSeats(a: Node, b: Node, i: nat): (r: seq<Path>)
    requires Ids(a.kind.kids) == Ids(b.kind.kids)
    ensures forall k | 0 <= k < |r| :: Matches(a, b, r[k]) && r[k] != [] && i <= r[k][0] < |a.kind.kids|
    decreases Size(a), 0, |a.kind.kids| - i
  {
    if i >= |a.kind.kids| then [] else
    SlotSizes(a);
    assert Slots(a)[i] == a.kind.kids[i] && Slots(b)[i] == b.kind.kids[i];
    assert Ids(a.kind.kids)[i] == Ids(b.kind.kids)[i];
    var head := Seats(a.kind.kids[i], b.kind.kids[i], false);
    assert forall k | 0 <= k < |head| :: ([i] + head[k])[1..] == head[k] && Matches(a, b, [i] + head[k]);
    Prefixed(i, head) + KidSeats(a, b, i + 1)
  }

  // -- The whole script ------------------------------------------------------

  ghost predicate Meets(m: Node, n: Node) {
    exists x :: Occ(x, m) >= 1 && Occ(x, n) >= 1
  }

  ghost predicate AllMatch(a: Node, b: Node, ps: seq<Path>) {
    forall k | 0 <= k < |ps| :: Matches(a, b, ps[k])
  }

  // Some new subtree holds an id that an old subtree replaced later still holds.
  ghost predicate Early(a: Node, b: Node, ps: seq<Path>)
    requires AllMatch(a, b, ps)
  {
    exists k, l | 0 <= k < l < |ps| :: Meets(NodeAt(b, ps[k]), NodeAt(a, ps[l]))
  }

  ghost predicate AllClear(t: Node, q: Path, a: Node, b: Node, ps: seq<Path>)
    requires ValidPath(t, q) && AllMatch(a, b, ps)
  {
    forall k | 0 <= k < |ps| :: Clear(t, q, NodeAt(b, ps[k]))
  }

  ghost predicate Goes(t: Node, q: Path, a: Node, b: Node, ps: seq<Path>)
    requires ValidPath(t, q) && AllMatch(a, b, ps)
  {
    AllClear(t, q, a, b, ps) && !Early(a, b, ps)
  }

  // `b` with its children from the i-th on still those of `a`.
  function Mixed(a: Node, b: Node, i: nat): Node
    requires i <= |a.kind.kids| == |b.kind.kids|
  {
    WithKids(b, b.kind.kids[..i] + a.kind.kids[i..])
  }

  lemma {:induction false} Cover(a: Node, b: Node, x: Id) returns (p: Path)
    requires a.id == b.id && Occ(x, a) >= 1 && Occ(x, b) == 0
    ensures p in Seats(a, b, false) && ValidPath(a, p) && Occ(x, NodeAt(a, p)) >= 1
    decreases Size(a), 1, 0
  {
    p := [];
    if FacetsOnly(a, b) {
      FacetsCount(a, b, x);
    } else if Recurses(a, b) {
      OccConcat(x, a.kind.kids, StateNodes(a.state));
      OccConcat(x, b.kind.kids, StateNodes(b.state));
      assert a.state == StripKids(b).state;
      assert a.kind.kids[0..] == a.kind.kids && b.kind.kids[0..] == b.kind.kids;
      p := KidCover(a, b, 0, x);
    }
  }

  lemma {:induction false} FacetsCount(a: Node, b: Node, x: Id)
    requires FacetsOnly(a, b)
    ensures Occ(x, a) == Occ(x, b)
  {
    assert Slots(a) == Slots(b);
  }

  lemma {:induction false} KidCover(a: Node, b: Node, i: nat, x: Id) returns (p: Path)
    requires Ids(a.kind.kids) == Ids(b.kind.kids) && i <= |a.kind.kids|
    requires OccSeq(x, a.kind.kids[i..]) >= 1 && OccSeq(x, b.kind.kids[i..]) == 0
    ensures p in KidSeats(a, b, i) && ValidPath(a, p) && Occ(x, NodeAt(a, p)) >= 1
    decreases Size(a), 0, |a.kind.kids| - i
  {
    var c, d := a.kind.kids[i], b.kind.kids[i];
    KidSize(a, i);
    KidSeatsStep(a, b, i);
    OccHead(x, a.kind.kids, i);
    OccHead(x, b.kind.kids, i);
    if Occ(x, c) >= 1 {
      var q := Cover(c, d, x);
      PrefixedAt(a, i, q);
      p := [i] + q;
      var head := Seats(c, d, false);
      var k :| 0 <= k < |head| && head[k] == q;
      assert Prefixed(i, head)[k] == p;
    } else {
      p := KidCover(a, b, i + 1, x);
    }
  }

  lemma {:induction false} KidSize(a: Node, i: nat)
    requires i < |a.kind.kids|
    ensures Size(a.kind.kids[i]) < Size(a)
    ensures Slots(a)[i] == a.kind.kids[i]
  {
    SlotSizes(a);
    assert Slots(a)[i] == a.kind.kids[i];
  }

  lemma {:induction false} PrefixedAt(a: Node, i: nat, p: Path)
    requires i < |a.kind.kids| && ValidPath(a.kind.kids[i], p)
    ensures ValidPath(a, [i] + p) && NodeAt(a, [i] + p) == NodeAt(a.kind.kids[i], p)
  {
    assert Slots(a)[i] == a.kind.kids[i];
    assert ([i] + p)[1..] == p;
  }

  lemma {:induction false} KidSeatsStep(a: Node, b: Node, i: nat)
    requires Ids(a.kind.kids) == Ids(b.kind.kids) && i < |a.kind.kids|
    ensures a.kind.kids[i].id == b.kind.kids[i].id
    ensures KidSeats(a, b, i)
         == Prefixed(i, Seats(a.kind.kids[i], b.kind.kids[i], false)) + KidSeats(a, b, i + 1)
  {
    assert Ids(a.kind.kids)[i] == Ids(b.kind.kids)[i];
  }

  lemma {:induction false} OccRange(x: Id, s: seq<Node>, i: nat, j: nat)
    requires i <= j < |s|
    ensures Occ(x, s[j]) <= OccSeq(x, s[i..])
  {
    assert s[i..][j - i] == s[j];
    OccMember(x, s[i..], j - i);
  }

  lemma {:induction false} MixedOcc(a: Node, b: Node, i: nat, x: Id)
    requires i <= |a.kind.kids| == |b.kind.kids| && IsLayout(b)
    ensures Occ(x, Mixed(a, b, i)) == Occ(x, b) - OccSeq(x, b.kind.kids[i..]) + OccSeq(x, a.kind.kids[i..])
    ensures Occ(x, b) >= OccSeq(x, b.kind.kids)
    ensures OccSeq(x, b.kind.kids) >= OccSeq(x, b.kind.kids[i..])
  {
    var m := Mixed(a, b, i);
    assert b.kind.kids == b.kind.kids[..i] + b.kind.kids[i..];
    OccConcat(x, b.kind.kids[..i], b.kind.kids[i..]);
    OccConcat(x, b.kind.kids[..i], a.kind.kids[i..]);
    OccConcat(x, b.kind.kids, StateNodes(b.state));
    OccConcat(x, m.kind.kids, StateNodes(b.state));
  }

  lemma {:induction false} OccHead(x: Id, s: seq<Node>, i: nat)
    requires i < |s|
    ensures OccSeq(x, s[i..]) == Occ(x, s[i]) + OccSeq(x, s[i + 1..])
  {
    assert s[i..][1..] == s[i + 1..];
  }

  lemma {:induction false} SeatInside(a: Node, b: Node, i: nat, l: nat, x: Id)
    requires Ids(a.kind.kids) == Ids(b.kind.kids) && l < |KidSeats(a, b, i)|
    ensures Occ(x, NodeAt(a, KidSeats(a, b, i)[l])) <= OccSeq(x, a.kind.kids[i..])
  {
    var p := KidSeats(a, b, i)[l];
    assert Slots(a)[p[0]] == a.kind.kids[p[0]];
    OccAt(x, a.kind.kids[p[0]], p[1..]);
    OccRange(x, a.kind.kids, i, p[0]);
  }

  // The tree in the middle of the children: `a` still stands at kid i.
  ghost predicate Midway(t: Node, q: Path, a: Node, b: Node, i: nat) {
    && UniqueIds(t) && UniqueIds(b) && IsLayout(b)
    && Ids(a.kind.kids) == Ids(b.kind.kids) && i <= |a.kind.kids|
    && ValidPath(t, q) && NodeAt(t, q) == Mixed(a, b, i)
  }

  lemma {:induction false} MidKid(t: Node, q: Path, a: Node, b: Node, i: nat)
    requires Midway(t, q, a, b, i) && i < |a.kind.kids|
    ensures ValidPath(t, q + [i]) && NodeAt(t, q + [i]) == a.kind.kids[i]
    ensures a.kind.kids[i].id == b.kind.kids[i].id
    ensures Put(t, q + [i], b.kind.kids[i]) == Put(t, q, Mixed(a, b, i + 1))
  {
    var m := Mixed(a, b, i);
    KidPath(t, q, i);
    KidPut(t, q, i, b.kind.kids[i]);
    assert Ids(a.kind.kids)[i] == Ids(b.kind.kids)[i];
    assert m.kind.kids[i := b.kind.kids[i]] == b.kind.kids[..i + 1] + a.kind.kids[i + 1..];
  }

  ghost predicate MeetsNone(m: Node, a: Node, ps: seq<Path>) {
    forall p | p in ps && ValidPath(a, p) :: !Meets(m, NodeAt(a, p))
  }

  // Counting an id of kid i in the middle tree: old kid i, or later old kids.
  lemma {:induction false} MidCount(a: Node, b: Node, i: nat, x: Id)
    requires UniqueIds(b) && IsLayout(b) && Ids(a.kind.kids) == Ids(b.kind.kids) && i < |a.kind.kids|
    requires Occ(x, b.kind.kids[i]) >= 1
    ensures Occ(x, a.kind.kids[i]) + OccSeq(x, a.kind.kids[i + 1..]) == Occ(x, Mixed(a, b, i))
    ensures OccSeq(x, b.kind.kids[i + 1..]) == 0
  {
    MixedOcc(a, b, i, x);
    OccHead(x, a.kind.kids, i);
    OccHead(x, b.kind.kids, i);
    assert Occ(x, b) <= 1;
  }

  // What stands in the way of a subtree of kid i: the surroundings, and old
  // subtrees replaced later.
  lemma {:induction false} ClearStep(t: Node, q: Path, a: Node, b: Node, i: nat, m: Node)
    requires Midway(t, q, a, b, i) && i < |a.kind.kids|
    requires ValidPath(t, q + [i]) && NodeAt(t, q + [i]) == a.kind.kids[i]
    requires forall x :: Occ(x, m) <= Occ(x, b.kind.kids[i])
    ensures Clear(t, q + [i], m) <==> Clear(t, q, m) && MeetsNone(m, a, KidSeats(a, b, i + 1))
  {
    if Clear(t, q + [i], m) {
      ClearOut(t, q, a, b, i, m);
    }
    if Clear(t, q, m) && MeetsNone(m, a, KidSeats(a, b, i + 1)) {
      forall x | Occ(x, m) >= 1 ensures Occ(x, t) == Occ(x, a.kind.kids[i]) {
        MidCount(a, b, i, x);
        if OccSeq(x, a.kind.kids[i + 1..]) >= 1 {
          var p := KidCover(a, b, i + 1, x);
          assert Meets(m, NodeAt(a, p));
          assert false;
        }
      }
    }
  }

  lemma {:induction false} ClearOut(t: Node, q: Path, a: Node, b: Node, i: nat, m: Node)
    requires Midway(t, q, a, b, i) && i < |a.kind.kids|
    requires ValidPath(t, q + [i]) && NodeAt(t, q + [i]) == a.kind.kids[i]
    requires forall x :: Occ(x, m) <= Occ(x, b.kind.kids[i])
    requires Clear(t, q + [i], m)
    ensures Clear(t, q, m) && MeetsNone(m, a, KidSeats(a, b, i + 1))
  {
    var rest := KidSeats(a, b, i + 1);
    forall x | Occ(x, m) >= 1
      ensures Occ(x, t) == Occ(x, NodeAt(t, q)) && OccSeq(x, a.kind.kids[i + 1..]) == 0
    {
      MidCount(a, b, i, x);
      OccAt(x, t, q);
    }
    forall p | p in rest && ValidPath(a, p) ensures !Meets(m, NodeAt(a, p)) {
      var l :| 0 <= l < |rest| && rest[l] == p;
      forall x | Occ(x, m) >= 1 ensures Occ(x, NodeAt(a, p)) == 0 {
        SeatInside(a, b, i + 1, l, x);
      }
    }
  }

  lemma {:induction false} ClearPut(t: Node, q: Path, n: Node, m: Node)
    requires ValidPath(t, q) && ValidPath(Put(t, q, n), q)
    ensures Clear(Put(t, q, n), q, m) <==> Clear(t, q, m)
  {
    PutAt(t, q, n);
    forall x ensures Occ(x, Put(t, q, n)) - Occ(x, n) == Occ(x, t) - Occ(x, NodeAt(t, q)) {
      OccPut(x, t, q, n);
    }
  }

  lemma {:induction false} EarlySplit(a: Node, b: Node, ps: seq<Path>, rs: seq<Path>)
    requires AllMatch(a, b, ps) && AllMatch(a, b, rs)
    ensures AllMatch(a, b, ps + rs)
    ensures !Early(a, b, ps + rs) <==>
      && !Early(a, b, ps) && !Early(a, b, rs)
      && forall k | 0 <= k < |ps| :: MeetsNone(NodeAt(b, ps[k]), a, rs)
  {
    var all := ps + rs;
    assert forall k | 0 <= k < |ps| :: all[k] == ps[k];
    assert forall k | 0 <= k < |rs| :: all[|ps| + k] == rs[k];
    if !Early(a, b, all) {
      forall k | 0 <= k < |ps| ensures MeetsNone(NodeAt(b, ps[k]), a, rs) {
        forall p | p in rs && ValidPath(a, p) ensures !Meets(NodeAt(b, ps[k]), NodeAt(a, p)) {
          var l :| 0 <= l < |rs| && rs[l] == p;
          assert !Meets(NodeAt(b, all[k]), NodeAt(a, all[|ps| + l]));
        }
      }
      forall k, l | 0 <= k < l < |rs| ensures !Meets(NodeAt(b, rs[k]), NodeAt(a, rs[l])) {
        assert !Meets(NodeAt(b, all[|ps| + k]), NodeAt(a, all[|ps| + l]));
      }
      forall k, l | 0 <= k < l < |ps| ensures !Meets(NodeAt(b, ps[k]), NodeAt(a, ps[l])) {
        assert !Meets(NodeAt(b, all[k]), NodeAt(a, all[l]));
      }
    } else {
      var k, l :| 0 <= k < l < |all| && Meets(NodeAt(b, all[k]), NodeAt(a, all[l]));
      if k < |ps| && l < |ps| {
        assert Meets(NodeAt(b, ps[k]), NodeAt(a, ps[l]));
      } else if k < |ps| {
        assert rs[l - |ps|] == all[l];
        assert Meets(NodeAt(b, ps[k]), NodeAt(a, all[l]));
      } else {
        assert Meets(NodeAt(b, rs[k - |ps|]), NodeAt(a, rs[l - |ps|]));
      }
    }
  }

  lemma {:induction false} PrefixedMatch(a: Node, b: Node, i: nat, head: seq<Path>)
    requires i < |a.kind.kids| && i < |b.kind.kids|
    requires AllMatch(a.kind.kids[i], b.kind.kids[i], head)
    ensures AllMatch(a, b, Prefixed(i, head))
    ensures forall k | 0 <= k < |head| ::
      && NodeAt(a, Prefixed(i, head)[k]) == NodeAt(a.kind.kids[i], head[k])
      && NodeAt(b, Prefixed(i, head)[k]) == NodeAt(b.kind.kids[i], head[k])
  {
    var ps := Prefixed(i, head);
    forall k | 0 <= k < |head|
      ensures Matches(a, b, ps[k])
      ensures NodeAt(a, ps[k]) == NodeAt(a.kind.kids[i], head[k])
      ensures NodeAt(b, ps[k]) == NodeAt(b.kind.kids[i], head[k])
    {
      PrefixedAt(a, i, head[k]);
      PrefixedAt(b, i, head[k]);
      assert ps[k] == [i] + head[k];
    }
  }

  lemma {:induction false} EarlyPrefix(a: Node, b: Node, i: nat, head: seq<Path>)
    requires i < |a.kind.kids| && i < |b.kind.kids|
    requires AllMatch(a.kind.kids[i], b.kind.kids[i], head)
    ensures AllMatch(a, b, Prefixed(i, head))
    ensures Early(a, b, Prefixed(i, head)) <==> Early(a.kind.kids[i], b.kind.kids[i], head)
    ensures forall k | 0 <= k < |head| ::
      NodeAt(b, Prefixed(i, head)[k]) == NodeAt(b.kind.kids[i], head[k])
  {
    PrefixedMatch(a, b, i, head);
    SameEarly(a, b, Prefixed(i, head), a.kind.kids[i], b.kind.kids[i], head);
  }

  // Two lists of positions that name the same nodes.
  lemma {:induction false} SameEarly(a: Node, b: Node, ps: seq<Path>, c: Node, d: Node, qs: seq<Path>)
    requires AllMatch(a, b, ps) && AllMatch(c, d, qs) && |ps| == |qs|
    requires forall k | 0 <= k < |ps| :: NodeAt(a, ps[k]) == NodeAt(c, qs[k]) && NodeAt(b, ps[k]) == NodeAt(d, qs[k])
    ensures Early(a, b, ps) <==> Early(c, d, qs)
  {
    EarlyToo(a, b, ps, c, d, qs);
    EarlyToo(c, d, qs, a, b, ps);
  }

  lemma {:induction false} EarlyToo(a: Node, b: Node, ps: seq<Path>, c: Node, d: Node, qs: seq<Path>)
    requires AllMatch(a, b, ps) && AllMatch(c, d, qs) && |ps| == |qs|
    requires forall k | 0 <= k < |ps| :: NodeAt(a, ps[k]) == NodeAt(c, qs[k]) && NodeAt(b, ps[k]) == NodeAt(d, qs[k])
    ensures Early(a, b, ps) ==> Early(c, d, qs)
  {
    if Early(a, b, ps) {
      var k, l :| 0 <= k < l < |ps| && Meets(NodeAt(b, ps[k]), NodeAt(a, ps[l]));
      assert Meets(NodeAt(d, qs[k]), NodeAt(c, qs[l]));
    }
  }

  // The children's script goes through when kid i's does and then the rest's.
  lemma {:induction false} GoesStep(t: Node, q: Path, a: Node, b: Node, i: nat)
    requires Midway(t, q, a, b, i) && i < |a.kind.kids|
    ensures ValidPath(t, q + [i]) && a.kind.kids[i].id == b.kind.kids[i].id
    ensures ValidPath(Put(t, q + [i], b.kind.kids[i]), q)
    ensures Goes(t, q, a, b, KidSeats(a, b, i)) <==>
      && Goes(t, q + [i], a.kind.kids[i], b.kind.kids[i], Seats(a.kind.kids[i], b.kind.kids[i], false))
      && Goes(Put(t, q + [i], b.kind.kids[i]), q, a, b, KidSeats(a, b, i + 1))
  {
    var c, d := a.kind.kids[i], b.kind.kids[i];
    MidKid(t, q, a, b, i);
    var head, rest := Seats(c, d, false), KidSeats(a, b, i + 1);
    var ps := Prefixed(i, head);
    PutAt(t, q, Mixed(a, b, i + 1));
    KidSeatsStep(a, b, i);
    EarlyPrefix(a, b, i, head);
    EarlySplit(a, b, ps, rest);
    AllClearSplit(t, q, a, b, ps, rest);
    HeadAllClear(t, q, a, b, i);
    AllClearPut(t, q, Mixed(a, b, i + 1), a, b, rest);
  }

  lemma {:induction false} AllClearPut(t: Node, q: Path, n: Node, a: Node, b: Node, ps: seq<Path>)
    requires ValidPath(t, q) && ValidPath(Put(t, q, n), q) && AllMatch(a, b, ps)
    ensures AllClear(Put(t, q, n), q, a, b, ps) <==> AllClear(t, q, a, b, ps)
  {
    forall k | 0 <= k < |ps| ensures Clear(Put(t, q, n), q, NodeAt(b, ps[k])) <==> Clear(t, q, NodeAt(b, ps[k])) {
      ClearPut(t, q, n, NodeAt(b, ps[k]));
    }
  }

  // The way is clear for kid i's seats, seen from the kid and from its parent.
  lemma {:induction false} HeadAllClear(t: Node, q: Path, a: Node, b: Node, i: nat)
    requires Midway(t, q, a, b, i) && i < |a.kind.kids|
    requires ValidPath(t, q + [i]) && NodeAt(t, q + [i]) == a.kind.kids[i]
    requires a.kind.kids[i].id == b.kind.kids[i].id
    ensures var c, d := a.kind.kids[i], b.kind.kids[i];
      var head, rest := Seats(c, d, false), KidSeats(a, b, i + 1);
      var ps := Prefixed(i, head);
      && AllMatch(a, b, ps)
      && (AllClear(t, q + [i], c, d, head) <==>
            AllClear(t, q, a, b, ps) && forall k | 0 <= k < |ps| :: MeetsNone(NodeAt(b, ps[k]), a, rest))
  {
    var c, d := a.kind.kids[i], b.kind.kids[i];
    var head, rest := Seats(c, d, false), KidSeats(a, b, i + 1);
    var ps := Prefixed(i, head);
    PrefixedMatch(a, b, i, head);
    forall k | 0 <= k < |head|
      ensures Clear(t, q + [i], NodeAt(d, head[k])) <==>
        Clear(t, q, NodeAt(b, ps[k])) && MeetsNone(NodeAt(b, ps[k]), a, rest)
    {
      assert NodeAt(b, ps[k]) == NodeAt(d, head[k]);
      HeadClear(t, q, a, b, i, head[k]);
    }
  }

  lemma {:induction false} HeadClear(t: Node, q: Path, a: Node, b: Node, i: nat, p: Path)
    requires Midway(t, q, a, b, i) && i < |a.kind.kids|
    requires ValidPath(t, q + [i]) && NodeAt(t, q + [i]) == a.kind.kids[i]
    requires a.kind.kids[i].id == b.kind.kids[i].id && ValidPath(b.kind.kids[i], p)
    ensures Clear(t, q + [i], NodeAt(b.kind.kids[i], p)) <==>
      Clear(t, q, NodeAt(b.kind.kids[i], p)) && MeetsNone(NodeAt(b.kind.kids[i], p), a, KidSeats(a, b, i + 1))
  {
    var d := b.kind.kids[i];
    forall x ensures Occ(x, NodeAt(d, p)) <= Occ(x, d) { OccAt(x, d, p); }
    ClearStep(t, q, a, b, i, NodeAt(d, p));
  }

  lemma {:induction false} AllClearSplit(t: Node, q: Path, a: Node, b: Node, ps: seq<Path>, rs: seq<Path>)
    requires ValidPath(t, q) && AllMatch(a, b, ps) && AllMatch(a, b, rs)
    ensures AllMatch(a, b, ps + rs)
    ensures AllClear(t, q, a, b, ps + rs) <==> AllClear(t, q, a, b, ps) && AllClear(t, q, a, b, rs)
  {
    var all := ps + rs;
    assert forall k | 0 <= k < |ps| :: all[k] == ps[k];
    assert forall k | 0 <= k < |rs| :: all[|ps| + k] == rs[k];
    if AllClear(t, q, a, b, all) {
      forall k | 0 <= k < |rs| ensures Clear(t, q, NodeAt(b, rs[k])) {
        assert Clear(t, q, NodeAt(b, all[|ps| + k]));
      }
      forall k | 0 <= k < |ps| ensures Clear(t, q, NodeAt(b, ps[k])) {
        assert Clear(t, q, NodeAt(b, all[k]));
      }
    }
    if AllClear(t, q, a, b, ps) && AllClear(t, q, a, b, rs) {
      forall k | 0 <= k < |all| ensures Clear(t, q, NodeAt(b, all[k])) {
        if k >= |ps| {
          assert all[k] == rs[k - |ps|];
        }
      }
    }
  }

  ghost predicate SeatOf(t: Node, q: Path, seat: Option<Seat>) {
    match seat
    case None => q == []
    case Some(s) =>
      && q != [] && ValidPath(t, Above(q)) && q[|q| - 1] == s.position
      && (var n := NodeAt(t, Above(q));
          IsLayout(n) && s.position < |n.kind.kids| && n.id == s.parentId && Ids(n.kind.kids) == s.siblings)
  }

  // The script of a matched pair, run where the old node stands.
  lemma {:induction false} DiffRun(t: Node, q: Path, a: Node, b: Node, seat: Option<Seat>)
    requires UniqueIds(t) && UniqueIds(b) && Canonical(a) && Canonical(b)
    requires ValidPath(t, q) && NodeAt(t, q) == a && a.id == b.id && SeatOf(t, q, seat)
    ensures Fold(DiffNode(a, b, seat), t)
         == if Goes(t, q, a, b, Seats(a, b, seat.None?)) then Some(Put(t, q, b)) else None
    ensures Goes(t, q, a, b, Seats(a, b, seat.None?)) ==> UniqueIds(Put(t, q, b))
    decreases Size(a), 1, 0
  {
    if a == b {
      PutSame(t, q);
    } else if FacetsOnly(a, b) {
      FacetRun(t, q, a, b);
    } else if Recurses(a, b) {
      FacetsThenKids(t, q, a, b);
    } else if seat.None? {
      FoldOne(ReplaceRoot(b), t);
    } else {
      WholeSeat(t, q, a, b, seat.value);
    }
  }

  lemma {:induction false} FacetsThenKids(t: Node, q: Path, a: Node, b: Node)
    requires UniqueIds(t) && UniqueIds(b) && Canonical(a) && Canonical(b)
    requires ValidPath(t, q) && NodeAt(t, q) == a && a.id == b.id && Recurses(a, b)
    ensures Fold(FacetEdits(a, b) + DiffKids(a, b, 0), t)
         == if Goes(t, q, a, b, KidSeats(a, b, 0)) then Some(Put(t, q, b)) else None
    ensures Goes(t, q, a, b, KidSeats(a, b, 0)) ==> UniqueIds(Put(t, q, b))
    decreases Size(a), 0, |a.kind.kids| + 1
  {
    var t1 := Put(t, q, WithFacetsOf(a, b));
    FacetRun(t, q, a, b);
    PutAt(t, q, WithFacetsOf(a, b));
    FoldConcat(FacetEdits(a, b), DiffKids(a, b, 0), t);
    MixedStart(a, b);
    forall p | p in KidSeats(a, b, 0) ensures Clear(t1, q, NodeAt(b, p)) <==> Clear(t, q, NodeAt(b, p)) {
      ClearPut(t, q, WithFacetsOf(a, b), NodeAt(b, p));
    }
    KidsRun(t1, q, a, b, 0);
    PutPut(t, q, WithFacetsOf(a, b), b);
  }

  lemma {:induction false} MixedStart(a: Node, b: Node)
    requires Recurses(a, b)
    ensures Mixed(a, b, 0) == WithFacetsOf(a, b) && Mixed(a, b, |a.kind.kids|) == b
  {
    assert b.kind.kids[..0] + a.kind.kids[0..] == a.kind.kids;
    assert b.kind.kids[..|a.kind.kids|] + a.kind.kids[|a.kind.kids|..] == b.kind.kids;
    var f := WithFacetsOf(a, b);
    assert StripKids(f).kind.fields == StripKids(b).kind.fields;
  }

  lemma {:induction false} WholeSeat(t: Node, q: Path, a: Node, b: Node, seat: Seat)
    requires UniqueIds(t) && UniqueIds(b)
    requires ValidPath(t, q) && NodeAt(t, q) == a && a.id == b.id && SeatOf(t, q, Some(seat))
    ensures Fold(ReplaceSeat(a, b, seat), t) == if Goes(t, q, a, b, [[]]) then Some(Put(t, q, b)) else None
    ensures Goes(t, q, a, b, [[]]) ==> UniqueIds(Put(t, q, b))
  {
    var p, i := Above(q), seat.position;
    assert q == p + [i];
    KidPath(t, p, i);
    SeatRun(t, p, i, a, b);
    assert Goes(t, q, a, b, [[]]) <==> Clear(t, q, NodeAt(b, [[]][0]));
    if Clear(t, q, b) {
      ClearUnique(t, q, b);
    }
  }

  lemma {:induction false} KidsRun(t: Node, q: Path, a: Node, b: Node, i: nat)
    requires Midway(t, q, a, b, i) && a.id == b.id && Canonical(a) && Canonical(b)
    ensures Fold(DiffKids(a, b, i), t)
         == if Goes(t, q, a, b, KidSeats(a, b, i)) then Some(Put(t, q, b)) else None
    ensures Goes(t, q, a, b, KidSeats(a, b, i)) ==> UniqueIds(Put(t, q, b))
    decreases Size(a), 0, |a.kind.kids| - i
  {
    if i == |a.kind.kids| {
      assert Mixed(a, b, i) == b by {
        assert b.kind.kids[..i] + a.kind.kids[i..] == b.kind.kids;
      }
      PutSame(t, q);
    } else {
      var c, d := a.kind.kids[i], b.kind.kids[i];
      var seat := Some(Seat(a.id, i, Ids(b.kind.kids)));
      var t' := Put(t, q, Mixed(a, b, i + 1));
      KidSize(a, i);
      MidSeat(t, q, a, b, i);
      GoesStep(t, q, a, b, i);
      DiffRun(t, q + [i], c, d, seat);
      FoldConcat(DiffNode(c, d, seat), DiffKids(a, b, i + 1), t);
      if Goes(t, q + [i], c, d, Seats(c, d, false)) {
        MidNext(t, q, a, b, i);
        KidsRun(t', q, a, b, i + 1);
      }
    }
  }

  // Kid i is a seat of the middle tree.
  lemma {:induction false} MidSeat(t: Node, q: Path, a: Node, b: Node, i: nat)
    requires Midway(t, q, a, b, i) && i < |a.kind.kids| && a.id == b.id && Canonical(a) && Canonical(b)
    ensures ValidPath(t, q + [i]) && NodeAt(t, q + [i]) == a.kind.kids[i]
    ensures a.kind.kids[i].id == b.kind.kids[i].id
    ensures Canonical(a.kind.kids[i]) && Canonical(b.kind.kids[i]) && UniqueIds(b.kind.kids[i])
    ensures SeatOf(t, q + [i], Some(Seat(a.id, i, Ids(b.kind.kids))))
  {
    KidSize(a, i);
    KidSize(b, i);
    MidKid(t, q, a, b, i);
    UniqueKid(b, i);
    CanonicalKid(a, i);
    CanonicalKid(b, i);
    MidIds(a, b, i);
    SeatBelow(t, q, i);
  }

  lemma {:induction false} CanonicalKid(a: Node, i: nat)
    requires Canonical(a) && i < |a.kind.kids|
    ensures Canonical(a.kind.kids[i])
  {
    assert Slots(a)[i] == a.kind.kids[i];
  }

  lemma {:induction false} MidIds(a: Node, b: Node, i: nat)
    requires IsLayout(b) && Ids(a.kind.kids) == Ids(b.kind.kids) && i <= |a.kind.kids|
    ensures Ids(Mixed(a, b, i).kind.kids) == Ids(b.kind.kids)
  {
    assert |Ids(a.kind.kids)| == |Ids(b.kind.kids)|;
    forall k | 0 <= k < |b.kind.kids| ensures Ids(Mixed(a, b, i).kind.kids)[k] == Ids(b.kind.kids)[k] {
      if k >= i { assert Ids(a.kind.kids)[k] == Ids(b.kind.kids)[k]; }
    }
  }

  lemma {:induction false} SeatBelow(t: Node, q: Path, i: nat)
    requires ValidPath(t, q) && IsLayout(NodeAt(t, q)) && i < |NodeAt(t, q).kind.kids|
    ensures SeatOf(t, q + [i], Some(Seat(NodeAt(t, q).id, i, Ids(NodeAt(t, q).kind.kids))))
  {
    assert Above(q + [i]) == q;
  }

  lemma {:induction false} MidNext(t: Node, q: Path, a: Node, b: Node, i: nat)
    requires Midway(t, q, a, b, i) && i < |a.kind.kids|
    requires ValidPath(t, q + [i]) && UniqueIds(Put(t, q + [i], b.kind.kids[i]))
    ensures Put(t, q + [i], b.kind.kids[i]) == Put(t, q, Mixed(a, b, i + 1))
    ensures Midway(Put(t, q, Mixed(a, b, i + 1)), q, a, b, i + 1)
    ensures Put(Put(t, q, Mixed(a, b, i + 1)), q, b) == Put(t, q, b)
  {
    MidKid(t, q, a, b, i);
    PutAt(t, q, Mixed(a, b, i + 1));
    PutPut(t, q, Mixed(a, b, i + 1), b);
  }

  lemma {:induction false} UniqueKid(b: Node, i: nat)
    requires UniqueIds(b) && i < |b.kind.kids|
    ensures UniqueIds(b.kind.kids[i])
  {
    KidPath(b, [], i);
    UniqueAt(b, [] + [i]);
  }

  // -- The round trip --------------------------------------------------------

  lemma {:induction false} GuardsPass(op: Op, t: Node, r: Node)
    requires ApplyOne(op, t) == Ok(r) && UniqueIds(r) && WithinLimits(r)
    ensures Apply(op, t) == Ok(r)
  {
    forall i, x | 0 <= i < |InsertedNodes(op)| && x in AllIds(InsertedNodes(op)[i]) ensures Occ(x, r) <= 1 {
    }
  }

  // A script applied as one batch: the reducer's fold, when that is well formed.
  lemma {:induction false} BatchedFold(script: seq<Op>, a: Node, b: Node)
    requires UniqueIds(b) && WithinLimits(b)
    ensures var batched := if |script| >= 2 then [Batch(script)] else script;
      && (Fold(script, a) == Some(b) ==> ApplyScript(batched, a) == Ok(b))
      && (Fold(script, a) == None ==> ApplyScript(batched, a).Err?)
  {
    if |script| >= 2 {
      FoldIsBatch(script, 0, a);
      BatchIs(script, a);
      OneOp(Batch(script), a, b);
    } else if |script| == 1 {
      FoldOne(script[0], a);
      assert script == [script[0]];
      OneOp(script[0], a, b);
    }
  }

  lemma {:induction false} BatchIs(ops: seq<Op>, t: Node)
    ensures ApplyOne(Batch(ops), t) == ApplySeq(ops, 0, t)
  {
  }

  // A script of one op: what the reducer says of the op, when the outcome is well formed.
  lemma {:induction false} OneOp(op: Op, a: Node, b: Node)
    requires UniqueIds(b) && WithinLimits(b)
    ensures ApplyOne(op, a) == Ok(b) ==> ApplyScript([op], a) == Ok(b)
    ensures ApplyOne(op, a).Err? ==> ApplyScript([op], a).Err?
  {
    if ApplyOne(op, a) == Ok(b) {
      GuardsPass(op, a, b);
      assert ApplyScript([op], a) == ApplyScript([op][1..], b);
      assert [op][1..] == [];
    }
  }

  // The batched diff of two trees applied to the first gives the second exactly when
  // no new subtree holds an id of an old subtree the script replaces later; otherwise
  // it is refused, and never gives a third tree.
  lemma {:induction false} RoundTrip(a: Node, b: Node)
    requires UniqueIds(a) && UniqueIds(b) && Canonical(a) && Canonical(b) && WithinLimits(b)
    ensures a.id != b.id ==> ApplyScript(DiffBatched(a, b), a) == Ok(b)
    ensures a.id == b.id && !Early(a, b, Seats(a, b, true)) ==> ApplyScript(DiffBatched(a, b), a) == Ok(b)
    ensures a.id == b.id && Early(a, b, Seats(a, b, true)) ==> ApplyScript(DiffBatched(a, b), a).Err?
  {
    if a.id != b.id {
      FoldOne(ReplaceRoot(b), a);
    } else {
      DiffRun(a, [], a, b, None);
      assert Goes(a, [], a, b, Seats(a, b, true)) <==> !Early(a, b, Seats(a, b, true));
    }
    BatchedFold(Diff.Diff(a, b), a, b);
  }

  // Ids the two trees share hang under the same parent id in both.
  ghost predicate SameParents(a: Node, b: Node) {
    forall p, q | ValidPath(a, p) && ValidPath(b, q) && NodeAt(a, p).id == NodeAt(b, q).id ::
      && (p == [] <==> q == [])
      && (p != [] && q != [] ==>
            ValidPath(a, Above(p)) && ValidPath(b, Above(q)) && NodeAt(a, Above(p)).id == NodeAt(b, Above(q)).id)
  }

  // No path of the list leads below another.
  ghost predicate Apart(ps: seq<Path>) {
    forall k, l, u: Path {:trigger ps[k] + u, ps[l]} | 0 <= k < |ps| && 0 <= l < |ps| && k != l :: ps[k] + u != ps[l]
  }

  lemma {:induction false} ApartJoin(i: nat, head: seq<Path>, rest: seq<Path>)
    requires Apart(head) && Apart(rest)
    requires forall l | 0 <= l < |rest| :: rest[l] != [] && rest[l][0] > i
    ensures Apart(Prefixed(i, head) + rest)
  {
    var all := Prefixed(i, head) + rest;
    forall k, l, u: Path | 0 <= k < |all| && 0 <= l < |all| && k != l ensures all[k] + u != all[l] {
      assert (all[k] + u)[0] == all[k][0];
      if k < |head| && l < |head| {
        assert (all[k] + u)[1..] == head[k] + u && all[l][1..] == head[l];
      } else if k >= |head| && l >= |head| {
        assert rest[k - |head|] + u != rest[l - |head|];
      }
    }
  }

  // No seat lies inside another.
  lemma {:induction false} SeatsApart(a: Node, b: Node, root: bool)
    requires a.id == b.id
    ensures Apart(Seats(a, b, root))
    decreases Size(a), 1, 0
  {
    if Recurses(a, b) {
      KidSeatsApart(a, b, 0);
    }
  }

  lemma {:induction false} KidSeatsApart(a: Node, b: Node, i: nat)
    requires Ids(a.kind.kids) == Ids(b.kind.kids)
    ensures Apart(KidSeats(a, b, i))
    decreases Size(a), 0, |a.kind.kids| - i
  {
    if i < |a.kind.kids| {
      KidSize(a, i);
      KidSeatsStep(a, b, i);
      SeatsApart(a.kind.kids[i], b.kind.kids[i], false);
      KidSeatsApart(a, b, i + 1);
      ApartJoin(i, Seats(a.kind.kids[i], b.kind.kids[i], false), KidSeats(a, b, i + 1));
    }
  }

  lemma {:induction false} ParentsMeet(a: Node, b: Node, p: Path, q: Path)
    requires SameParents(a, b) && p != [] && q != []
    requires ValidPath(a, p) && ValidPath(b, q) && NodeAt(a, p).id == NodeAt(b, q).id
    ensures ValidPath(a, Above(p)) && ValidPath(b, Above(q)) && NodeAt(a, Above(p)).id == NodeAt(b, Above(q)).id
  {
  }

  // An id inside the new subtree at one seat and the old subtree at another would
  // have to keep its parents up to one of the two seats.
  lemma {:induction false} NoMeeting(a: Node, b: Node, p: Path, u: Path, q: Path, w: Path)
    requires UniqueIds(a) && UniqueIds(b) && SameParents(a, b)
    requires Matches(a, b, p) && Matches(a, b, q)
    requires ValidPath(b, p + u) && ValidPath(a, q + w) && NodeAt(b, p + u).id == NodeAt(a, q + w).id
    requires forall v: Path :: p + v != q && q + v != p
    ensures false
    decreases |u|
  {
    if u == [] {
      assert p + u == p;
      UniquePath(a, p, q + w);
    } else if w == [] {
      assert q + w == q;
      UniquePath(b, q, p + u);
    } else {
      assert Above(p + u) == p + Above(u) && Above(q + w) == q + Above(w);
      ParentsMeet(a, b, q + w, p + u);
      NoMeeting(a, b, p, Above(u), q, Above(w));
    }
  }

  // Trees whose shared ids keep their parents always round trip.
  lemma {:induction false} SameParentsRoundTrip(a: Node, b: Node)
    requires UniqueIds(a) && UniqueIds(b) && Canonical(a) && Canonical(b) && WithinLimits(b)
    requires SameParents(a, b)
    ensures ApplyScript(DiffBatched(a, b), a) == Ok(b)
  {
    RoundTrip(a, b);
    if a.id == b.id {
      var ps := Seats(a, b, true);
      forall k, l | 0 <= k < l < |ps| ensures !Meets(NodeAt(b, ps[k]), NodeAt(a, ps[l])) {
        if x :| Occ(x, NodeAt(b, ps[k])) >= 1 && Occ(x, NodeAt(a, ps[l])) >= 1 {
          var u := PathTo(x, NodeAt(b, ps[k]));
          var w := PathTo(x, NodeAt(a, ps[l]));
          PathConcat(b, ps[k], u);
          PathConcat(a, ps[l], w);
          SeatsApart(a, b, true);
          NoMeeting(a, b, ps[k], u, ps[l], w);
        }
      }
    }
  }
}
