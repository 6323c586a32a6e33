// Which children a merged node lists, and in which order.
module MergeOrder {
  import opened Wrappers
  import opened Tree
  import opened Ordinal
  import opened Merge
  import opened ApplySafety
  import opened MergeUnique
  import opened MergeContent
  import MergeLaws

  // -- A head that only adds -------------------------------------------------

  ghost predicate Before(s: seq<Id>, x: Id, y: Id) {
    exists i, j :: 0 <= i < j < |s| && s[i] == x && s[j] == y
  }

  // The head keeps every base id, and any two of them in the order the base has them.
  ghost predicate OnlyAdds(base: seq<Id>, head: seq<Id>) {
    && (forall x | x in base :: x in head)
    && forall x, y | Before(base, x, y) :: Before(head, x, y)
  }

  lemma {:induction false} BeforeStep(x: Id, s: seq<Id>, y: Id, z: Id)
    ensures Before([x] + s, y, z) <==> (y == x && z in s) || Before(s, y, z)
  {
    var all := [x] + s;
    if i, j :| 0 <= i < j < |all| && all[i] == y && all[j] == z {
      assert s[j - 1] == z;
      if i > 0 {
        assert s[i - 1] == y;
      }
    }
    if i, j :| 0 <= i < j < |s| && s[i] == y && s[j] == z {
      assert all[i + 1] == y && all[j + 1] == z;
    }
    if y == x && z in s {
      var j :| 0 <= j < |s| && s[j] == z;
      assert all[0] == y && all[j + 1] == z;
    }
  }

  lemma {:induction false} OnlyKeeps(ids: seq<Id>, keep: set<Id>, x: Id, y: Id)
    ensures Before(Only(ids, keep), x, y) <==> x in keep && y in keep && Before(ids, x, y)
  {
    if ids != [] {
      var rest := ids[1..];
      assert ids == [ids[0]] + rest;
      OnlyKeeps(rest, keep, x, y);
      BeforeStep(ids[0], rest, x, y);
      BeforeStep(ids[0], Only(rest, keep), x, y);
      OnlyIs(rest, keep);
    }
  }

  lemma {:induction false} OnlyNoRepeat(ids: seq<Id>, keep: set<Id>)
    requires NoRepeat(ids)
    ensures NoRepeat(Only(ids, keep))
  {
    if ids != [] {
      var rest := ids[1..];
      OnlyNoRepeat(rest, keep);
      OnlyIs(rest, keep);
      assert ids[0] !in rest;
      assert forall i | 0 <= i < |Only(rest, keep)| :: Only(rest, keep)[i] in Only(rest, keep);
    }
  }

  // Lists of the same ids, each once, that agree on which comes first are one list.
  lemma {:induction false} SameOrder(s: seq<Id>, t: seq<Id>)
    requires NoRepeat(s) && NoRepeat(t) && forall x :: x in s <==> x in t
    requires forall x, y | Before(s, x, y) :: Before(t, x, y)
    ensures s == t
  {
    assert s != [] ==> s[0] in t;
    assert t != [] ==> t[0] in s;
    if s != [] {
      SameFirst(s, t);
      assert s == [s[0]] + s[1..] && t == [t[0]] + t[1..];
      forall x ensures x in s[1..] <==> x in t[1..] {
        RestHas(s, x);
        RestHas(t, x);
      }
      forall x, y | Before(s[1..], x, y) ensures Before(t[1..], x, y) {
        BeforeStep(s[0], s[1..], x, y);
        BeforeStep(t[0], t[1..], x, y);
        BeforeHas(s[1..], x, y);
        RestHas(s, x);
      }
      SameOrder(s[1..], t[1..]);
    }
  }

  lemma {:induction false} BeforeHas(s: seq<Id>, x: Id, y: Id)
    requires Before(s, x, y)
    ensures x in s && y in s
  {
  }

  lemma {:induction false} RestHas(s: seq<Id>, x: Id)
    requires NoRepeat(s) && s != []
    ensures x in s[1..] <==> x in s && x != s[0]
  {
    assert s == [s[0]] + s[1..];
    if x in s[1..] {
      var k :| 0 <= k < |s[1..]| && s[1..][k] == x;
      assert s[0] != s[k + 1];
    }
  }

  lemma {:induction false} SameFirst(s: seq<Id>, t: seq<Id>)
    requires NoRepeat(s) && NoRepeat(t) && s != [] && t != [] && t[0] in s
    requires forall x, y | Before(s, x, y) :: Before(t, x, y)
    ensures s[0] == t[0]
  {
    var k :| 0 <= k < |s| && s[k] == t[0];
    assert k > 0 ==> Before(s, s[0], s[k]);
    NoneBeforeFirst(t, s[0]);
  }

  lemma {:induction false} NoneBeforeFirst(s: seq<Id>, x: Id)
    requires NoRepeat(s) && s != []
    ensures !Before(s, x, s[0])
  {
  }

  lemma {:induction false} PureIsOnlyAdds(base: seq<Id>, head: seq<Id>)
    requires NoRepeat(base) && NoRepeat(head)
    ensures PureAddition(base, head) <==> OnlyAdds(base, head)
  {
    var common := Only(head, ToSet(base));
    OnlyIs(base, ToSet(head));
    OnlyIs(head, ToSet(base));
    OnlyNoRepeat(base, ToSet(head));
    OnlyNoRepeat(head, ToSet(base));
    if PureAddition(base, head) {
      forall x, y | Before(base, x, y) ensures Before(head, x, y) {
        OnlyKeeps(head, ToSet(base), x, y);
      }
    }
    if OnlyAdds(base, head) {
      forall x, y | Before(base, x, y) ensures Before(common, x, y) {
        BeforeHas(base, x, y);
        OnlyKeeps(head, ToSet(base), x, y);
      }
      SameOrder(base, common);
      forall x, y | Before(base, x, y) ensures Before(Only(base, ToSet(head)), x, y) {
        BeforeHas(base, x, y);
        OnlyKeeps(base, ToSet(head), x, y);
      }
      SameOrder(base, Only(base, ToSet(head)));
    }
  }

  // -- What becomes of a child list ------------------------------------------

  // Both branches only add, and nothing in common.
  ghost predicate BothAdd(base: seq<Id>, a: seq<Id>, b: seq<Id>) {
    OnlyAdds(base, a) && OnlyAdds(base, b) && forall x | x in a && x in b :: x in base
  }

  // Both branches changed the list, differently, and it is not that both only add.
  ghost predicate ListContested(base: seq<Id>, a: seq<Id>, b: seq<Id>) {
    a != base && b != base && a != b && !BothAdd(base, a, b)
  }

  lemma {:induction false} ContestedIs(base: seq<Id>, a: seq<Id>, b: seq<Id>)
    requires NoRepeat(base) && NoRepeat(a) && NoRepeat(b)
    ensures OrderClash(base, a, b) <==> ListContested(base, a, b)
    ensures DisjointAdditions(base, a, b) <==> BothAdd(base, a, b)
  {
    PureIsOnlyAdds(base, a);
    PureIsOnlyAdds(base, b);
    NewApart(base, a, b);
  }

  lemma {:induction false} NewApart(base: seq<Id>, a: seq<Id>, b: seq<Id>)
    ensures ToSet(Except(a, ToSet(base))) !! ToSet(Except(b, ToSet(base))) <==>
      forall x | x in a && x in b :: x in base
  {
    var aNew, bNew := Except(a, ToSet(base)), Except(b, ToSet(base));
    ExceptIs(a, ToSet(base));
    ExceptIs(b, ToSet(base));
    forall x ensures x in ToSet(aNew) && x in ToSet(bNew) <==> x in a && x in b && x !in base {
    }
  }

  // The base's ids in the base's order, then the new ones of both, ascending by code points.
  ghost predicate BaseThenNew(base: seq<Id>, a: seq<Id>, b: seq<Id>, m: seq<Id>) {
    && |m| >= |base| && m[..|base|] == base
    && (forall i, j | |base| <= i < j < |m| :: Ascends(m[i], m[j]))
    && forall x :: x in m[|base|..] <==> x !in base && (x in a || x in b)
  }

  // The list a node ends with: the other branch's where one left it alone, the common one
  // where both made the same change, base and new ids where both only added; and where the
  // list is contested the primary's, or the base's when nobody holds primacy.
  ghost predicate ListSettles(
    authorA: Author, authorB: Author, base: seq<Id>, a: seq<Id>, b: seq<Id>, m: seq<Id>)
  {
    if a == base then m == b
    else if b == base || a == b then m == a
    else if BothAdd(base, a, b) then BaseThenNew(base, a, b, m)
    else if authorA.Primary? && authorB.Secondary? then m == a
    else if authorB.Primary? && authorA.Secondary? then m == b
    else m == base
  }

  lemma {:induction false} NewAscend(base: seq<Id>, a: seq<Id>, b: seq<Id>)
    requires NoRepeat(base) && NoRepeat(a) && NoRepeat(b)
    ensures BaseThenNew(base, a, b, base + SortedUnion(Except(a, ToSet(base)), Except(b, ToSet(base))))
  {
    var news := SortedUnion(Except(a, ToSet(base)), Except(b, ToSet(base)));
    SortedUnionIs(Except(a, ToSet(base)), Except(b, ToSet(base)));
    ExceptIs(a, ToSet(base));
    ExceptIs(b, ToSet(base));
    var m := base + news;
    assert m[|base|..] == news && m[..|base|] == base;
    forall i, j | |base| <= i < j < |m| ensures Ascends(m[i], m[j]) {
      assert Less(news[i - |base|], news[j - |base|]);
      LessIs(m[i], m[j]);
    }
  }

  lemma {:induction false} OrderSettles(authorA: Author, authorB: Author, base: seq<Id>, a: seq<Id>, b: seq<Id>)
    requires NoRepeat(base) && NoRepeat(a) && NoRepeat(b)
    ensures ListSettles(authorA, authorB, base, a, b, MergedOrder(ResolveAuthor(authorA, authorB), base, a, b))
  {
    ContestedIs(base, a, b);
    NewAscend(base, a, b);
  }

  // -- In the merged tree ----------------------------------------------------

  // A child the base list lacks comes from the branch that added it; where both did, and
  // differently, it is the one whose bytes come first.
  ghost predicate NewKid(before: (Node, Node) -> bool, a: seq<Node>, b: seq<Node>, x: Id, k: Node) {
    if x !in Ids(a) then x in Ids(b) && Some(k) == ById(b, x)
    else if x !in Ids(b) then Some(k) == ById(a, x)
    else k == if before(ById(a, x).value, ById(b, x).value) then ById(a, x).value else ById(b, x).value
  }

  ghost predicate NewKids(
    before: (Node, Node) -> bool, base: seq<Node>, a: seq<Node>, b: seq<Node>, m: seq<Node>)
  {
    forall k | k in m && k.id !in Ids(base) :: NewKid(before, a, b, k.id, k)
  }

  lemma {:induction false} KidsFromOrder(
    res: Resolution, c: Context, order: seq<Id>, base: Node, a: seq<Node>, b: seq<Node>, k: Node)
    requires k in MergeKids(res, c, order, base, a, b).0
    ensures exists x :: x in order && k in MergeKid(res, c, x, base, a, b).0
  {
    if k in MergeKid(res, c, order[0], base, a, b).0 {
      assert order[0] in order;
    } else {
      KidsFromOrder(res, c, order[1..], base, a, b, k);
      var x :| x in order[1..] && k in MergeKid(res, c, x, base, a, b).0;
      assert x in order;
    }
  }

  lemma {:induction false} RootNewKids(res: Resolution, c: Context, base: Node, a: Node, b: Node)
    ensures var m := Merge3(res, c, base, Some(a), Some(b)).0;
      IsLayout(m) ==> NewKids(c.before, KidsOf(base), KidsOf(a), KidsOf(b), KidsOf(m))
  {
    var m := Merge3(res, c, base, Some(a), Some(b)).0;
    if IsLayout(m) {
      var order := MergedOrder(res, Ids(KidsOf(base)), Ids(KidsOf(a)), Ids(KidsOf(b)));
      assert KidsOf(m) == MergeKids(res, c, order, base, KidsOf(a), KidsOf(b)).0;
      forall k | k in KidsOf(m) && k.id !in Ids(KidsOf(base))
        ensures NewKid(c.before, KidsOf(a), KidsOf(b), k.id, k)
      {
        KidsFromOrder(res, c, order, base, KidsOf(a), KidsOf(b), k);
        var x :| x in order && k in MergeKid(res, c, x, base, KidsOf(a), KidsOf(b)).0;
        FreshIs(res, c, x, base, KidsOf(a), KidsOf(b), k);
      }
    }
  }

  lemma {:induction false} FreshIs(
    res: Resolution, c: Context, x: Id, base: Node, a: seq<Node>, b: seq<Node>, k: Node)
    requires k in MergeKid(res, c, x, base, a, b).0 && k.id !in Ids(KidsOf(base))
    ensures k.id == x && NewKid(c.before, a, b, x, k)
  {
  }

  // One node's list.
  lemma {:induction false} RootList(
    authorA: Author, authorB: Author, c: Context, base: Node, a: Node, b: Node, owners: Owners)
    requires Fit(base, owners) && Fit(a, owners) && Fit(b, owners)
    ensures var m := Merge3(ResolveAuthor(authorA, authorB), c, base, Some(a), Some(b)).0;
      IsLayout(m) ==>
        && ListSettles(authorA, authorB, Ids(KidsOf(base)), Ids(KidsOf(a)), Ids(KidsOf(b)), Ids(KidsOf(m)))
        && NewKids(c.before, KidsOf(base), KidsOf(a), KidsOf(b), KidsOf(m))
  {
    var res := ResolveAuthor(authorA, authorB);
    RootNewKids(res, c, base, a, b);
    var order := MergedOrder(res, Ids(KidsOf(base)), Ids(KidsOf(a)), Ids(KidsOf(b)));
    FitKids(base, owners);
    FitKids(a, owners);
    FitKids(b, owners);
    OrderNoRepeat(res, Ids(KidsOf(base)), Ids(KidsOf(a)), Ids(KidsOf(b)));
    KidsPlaced(res, c, order, base, KidsOf(a), KidsOf(b), owners);
    OrderSettles(authorA, authorB, Ids(KidsOf(base)), Ids(KidsOf(a)), Ids(KidsOf(b)));
  }

  // A child in all three lists stays in the merged one, whatever was decided about the order.
  lemma {:induction false} OrderKeeps(res: Resolution, base: seq<Id>, a: seq<Id>, b: seq<Id>, x: Id)
    requires x in base && x in a && x in b
    ensures x in MergedOrder(res, base, a, b)
  {
  }

  // A node all three versions hold lies in one child of each, and the merge of those three is
  // a child of the merged node.
  lemma {:induction false} MergedBranch(
    res: Resolution, c: Context, base: Node, a: Node, b: Node, owners: Owners, p: Id)
    returns (bc: Node, ac: Node, bb: Node)
    requires Fit(base, owners) && Fit(a, owners) && Fit(b, owners) && base.id == a.id == b.id
    requires Holds(base, p) && Holds(a, p) && Holds(b, p) && p != base.id
    ensures Fit(bc, owners) && Fit(ac, owners) && Fit(bb, owners) && bc.id == ac.id == bb.id
    ensures Holds(bc, p) && Holds(ac, p) && Holds(bb, p) && Size(bc) < Size(base)
    ensures Sub(base, p) == Sub(bc, p) && Sub(a, p) == Sub(ac, p) && Sub(b, p) == Sub(bb, p)
    ensures Merge3(res, c, bc, Some(ac), Some(bb)).0 in KidsOf(Merge3(res, c, base, Some(a), Some(b)).0)
  {
    bc := BranchOf(base, p, owners);
    ac := BranchOf(a, p, owners);
    bb := BranchOf(b, p, owners);
    OneBranch(base, a, bc, ac, p, owners);
    OneBranch(base, b, bc, bb, p, owners);
    var baseIds, aIds, bIds := Ids(KidsOf(base)), Ids(KidsOf(a)), Ids(KidsOf(b));
    OrderKeeps(res, baseIds, aIds, bIds, bc.id);
    StaysLayout(res, c, base, a, b);
    KidIsMerge(res, c, base, KidsOf(a), KidsOf(b), bc, ac, bb);
    KidMerged(res, c, MergedOrder(res, baseIds, aIds, bIds), base, KidsOf(a), KidsOf(b), bc.id);
  }

  lemma {:induction false} StaysLayout(res: Resolution, c: Context, base: Node, a: Node, b: Node)
    requires IsLayout(base) && IsLayout(a) && IsLayout(b)
    ensures var order := MergedOrder(res, Ids(KidsOf(base)), Ids(KidsOf(a)), Ids(KidsOf(b)));
      KidsOf(Merge3(res, c, base, Some(a), Some(b)).0) == MergeKids(res, c, order, base, KidsOf(a), KidsOf(b)).0
  {
    assert IsLayoutTag(MergedKind(res, base, a, b).tag);
  }

  lemma {:induction false} KidIsMerge(
    res: Resolution, c: Context, base: Node, a: seq<Node>, b: seq<Node>, bc: Node, ac: Node, bb: Node)
    requires ById(KidsOf(base), bc.id) == Some(bc) && ById(a, bc.id) == Some(ac) && ById(b, bc.id) == Some(bb)
    ensures MergeKid(res, c, bc.id, base, a, b).0 == [Merge3(res, c, bc, Some(ac), Some(bb)).0]
  {
  }

  lemma {:induction false} KidMerged(
    res: Resolution, c: Context, order: seq<Id>, base: Node, a: seq<Node>, b: seq<Node>, x: Id)
    requires x in order
    ensures forall k | k in MergeKid(res, c, x, base, a, b).0 :: k in MergeKids(res, c, order, base, a, b).0
  {
    if x != order[0] {
      KidMerged(res, c, order[1..], base, a, b, x);
    }
  }

  lemma {:induction false} ListsSettleIn(
    authorA: Author, authorB: Author, c: Context, base: Node, a: Node, b: Node, owners: Owners, p: Id)
    requires Fit(base, owners) && Fit(a, owners) && Fit(b, owners) && base.id == a.id == b.id
    requires Fit(Merge3(ResolveAuthor(authorA, authorB), c, base, Some(a), Some(b)).0, owners)
    requires Holds(base, p) && Holds(a, p) && Holds(b, p)
    ensures ListSettlesAt(
      authorA, authorB, c.before, base, a, b,
      Merge3(ResolveAuthor(authorA, authorB), c, base, Some(a), Some(b)).0, p)
    decreases Size(base)
  {
    var res := ResolveAuthor(authorA, authorB);
    var m := Merge3(res, c, base, Some(a), Some(b)).0;
    if p == base.id {
      FitRoot(base, owners);
      FitRoot(a, owners);
      FitRoot(b, owners);
      FitRoot(m, owners);
      RootList(authorA, authorB, c, base, a, b, owners);
    } else {
      var bc, ac, bb := MergedBranch(res, c, base, a, b, owners, p);
      var mc := Merge3(res, c, bc, Some(ac), Some(bb)).0;
      FitKids(m, owners);
      var i := MergeLaws.KidAt(m, mc);
      MergeLaws.ByIdDistinct(KidsOf(m), i);
      ListsSettleIn(authorA, authorB, c, bc, ac, bb, owners, p);
      SubUnder(m, mc, p, owners);
    }
  }

  // The merged tree holds the node, and its list settles, new children included.
  ghost predicate ListSettlesAt(
    authorA: Author, authorB: Author, before: (Node, Node) -> bool, base: Node, a: Node, b: Node, m: Node, p: Id)
    requires Holds(base, p) && Holds(a, p) && Holds(b, p)
  {
    && Holds(m, p)
    && (IsLayout(Sub(m, p)) ==>
          && ListSettles(
            authorA, authorB, Ids(KidsOf(Sub(base, p))), Ids(KidsOf(Sub(a, p))), Ids(KidsOf(Sub(b, p))),
            Ids(KidsOf(Sub(m, p))))
          && NewKids(before, KidsOf(Sub(base, p)), KidsOf(Sub(a, p)), KidsOf(Sub(b, p)), KidsOf(Sub(m, p))))
  }

  // On unique trees that agree on where ids live, under any authorship and whatever is in
  // conflict, every child list of the merged tree is settled so.
  lemma {:induction false} ListsSettle(
    authorA: Author, authorB: Author, before: (Node, Node) -> bool, base: Node, a: Node, b: Node, owners: Owners, p: Id)
    requires base.id == a.id == b.id && Agree(base, a, b, owners)
    requires Holds(base, p) && Holds(a, p) && Holds(b, p)
    ensures ListSettlesAt(
      authorA, authorB, before, base, a, b, MergeAll(ResolveAuthor(authorA, authorB), before, base, a, b).0, p)
  {
    Settled(base, {}, owners);
    Settled(a, {}, owners);
    Settled(b, {}, owners);
    MergeFits(ResolveAuthor(authorA, authorB), before, base, a, b, owners);
    ListsSettleIn(authorA, authorB, ContextOf(base, a, b, before), base, a, b, owners, p);
  }
}
