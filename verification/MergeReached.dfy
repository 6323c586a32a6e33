// What a merge stores wherever it goes, whatever the branches relocated.
module MergeReached {
  import opened Wrappers
  import opened Tree
  import opened Merge
  import opened MergeLaws
  import opened MergeUnique
  import opened MergeContent
  import opened MergeOrder
  import opened MergeRepeats
  import opened MergeTold
  import C = MergeCells
  import E = MergeEnvelope

  // -- One node --------------------------------------------------------------

  lemma {:induction false} KidsListed(
    res: Resolution, c: Context, order: seq<Id>, base: Node, a: seq<Node>, b: seq<Node>)
    requires forall x | x in order :: x in Ids(KidsOf(base)) || x in Ids(a) || x in Ids(b)
    ensures Ids(MergeKids(res, c, order, base, a, b).0) == order
    decreases |order|
  {
    if order != [] {
      KidsListed(res, c, order[1..], base, a, b);
      OneListed(res, c, order[0], base, a, b);
      JoinListed(
        MergeKid(res, c, order[0], base, a, b).0, MergeKids(res, c, order[1..], base, a, b).0, order[0], order[1..]);
      assert order == [order[0]] + order[1..];
    }
  }

  lemma {:induction false} JoinListed(head: seq<Node>, rest: seq<Node>, x: Id, order: seq<Id>)
    requires Ids(head) == [x] && Ids(rest) == order
    ensures Ids(head + rest) == [x] + order
  {
    assert Ids(head + rest) == Ids(head) + Ids(rest);
  }

  lemma {:induction false} OneListed(res: Resolution, c: Context, x: Id, base: Node, a: seq<Node>, b: seq<Node>)
    requires x in Ids(KidsOf(base)) || x in Ids(a) || x in Ids(b)
    ensures Ids(MergeKid(res, c, x, base, a, b).0) == [x]
  {
  }

  // The node a merge makes of three versions of one: each facet settled, and the list of a
  // kind that has one settled too.
  ghost predicate Makes(
    rule: Rule, authorA: Author, authorB: Author, before: (Node, Node) -> bool, t: Trio, n: Node)
  {
    && Facetwise(rule, t.base, t.a, t.b, n)
    && (IsLayout(n) ==>
          && ListSettles(authorA, authorB, Ids(KidsOf(t.base)), Ids(KidsOf(t.a)), Ids(KidsOf(t.b)), Ids(KidsOf(n)))
          && NewKids(before, KidsOf(t.base), KidsOf(t.a), KidsOf(t.b), KidsOf(n)))
  }

  lemma {:induction false} NodeMade(
    rule: Rule, authorA: Author, authorB: Author, c: Context, t: Trio)
    requires rule.res == ResolveAuthor(authorA, authorB) && t.base.id == t.a.id == t.b.id
    requires UniqueIds(t.base) && UniqueIds(t.a) && UniqueIds(t.b)
    requires StoredStyle(t.base) && StoredStyle(t.a) && StoredStyle(t.b)
    requires rule.strict ==> OwnCells(rule.res, t.base, t.a, t.b) == []
    ensures Makes(rule, authorA, authorB, c.before, t, Merge3(rule.res, c, t.base, Some(t.a), Some(t.b)).0)
  {
    var res := rule.res;
    var baseIds, aIds, bIds := Ids(KidsOf(t.base)), Ids(KidsOf(t.a)), Ids(KidsOf(t.b));
    var order := MergedOrder(res, baseIds, aIds, bIds);
    NodeFacetwise(rule, t.base, t.a, t.b, MergeKids(res, c, order, t.base, KidsOf(t.a), KidsOf(t.b)).0);
    E.KidsNoRepeat(t.base);
    E.KidsNoRepeat(t.a);
    E.KidsNoRepeat(t.b);
    OrderNoRepeat(res, baseIds, aIds, bIds);
    KidsListed(res, c, order, t.base, KidsOf(t.a), KidsOf(t.b));
    OrderSettles(authorA, authorB, baseIds, aIds, bIds);
    RootNewKids(res, c, t.base, t.a, t.b);
  }

  // -- Wherever the recursion goes -------------------------------------------

  ghost predicate Sound3(t: Trio) {
    && t.base.id == t.a.id == t.b.id && UniqueIds(t.base) && UniqueIds(t.a) && UniqueIds(t.b)
    && Stored3(t.base, t.a, t.b)
  }

  lemma {:induction false} SoundBelow(t: Trio, cid: Id)
    requires Sound3(t) && Matched(t.base, t.a, t.b, cid)
    ensures Sound3(KidTrio(t, cid))
  {
    UniqueKids(t.base);
    UniqueKids(t.a);
    UniqueKids(t.b);
    StoredKid(t.base, Kid(t.base, cid));
    StoredKid(t.a, Kid(t.a, cid));
    StoredKid(t.b, Kid(t.b, cid));
  }

  // The merge of a matched child is a child of the merge.
  lemma {:induction false} MatchedMerged(res: Resolution, c: Context, t: Trio, cid: Id)
    requires Matched(t.base, t.a, t.b, cid)
    ensures var k := KidTrio(t, cid);
      Merge3(res, c, k.base, Some(k.a), Some(k.b)).0 in KidsOf(Merge3(res, c, t.base, Some(t.a), Some(t.b)).0)
  {
    var k := KidTrio(t, cid);
    var order := MergedOrder(res, Ids(KidsOf(t.base)), Ids(KidsOf(t.a)), Ids(KidsOf(t.b)));
    OrderKeeps(res, Ids(KidsOf(t.base)), Ids(KidsOf(t.a)), Ids(KidsOf(t.b)), cid);
    StaysLayout(res, c, t.base, t.a, t.b);
    KidIsMerge(res, c, t.base, KidsOf(t.a), KidsOf(t.b), k.base, k.a, k.b);
    KidMerged(res, c, order, t.base, KidsOf(t.a), KidsOf(t.b), cid);
  }

  lemma {:induction false} InsideTrans(whole: Node, m: Node, k: Node, n: Node)
    requires k in KidsOf(m) && Inside(k, n) && whole == m
    ensures Inside(whole, n)
  {
    var r: Path :| ValidPath(k, r) && NodeAt(k, r) == n;
    var i := KidAt(m, k);
    BelowSlot(m, i, r);
    assert ValidPath(m, [i] + r) && NodeAt(m, [i] + r) == n;
  }

  lemma {:induction false} ReachedMade(
    rule: Rule, authorA: Author, authorB: Author, c: Context, from: Trio, to: Trio)
    requires rule.res == ResolveAuthor(authorA, authorB) && Sound3(from) && Reached(from, to)
    requires rule.strict ==> OwnCells(rule.res, to.base, to.a, to.b) == []
    ensures var n := Merge3(rule.res, c, to.base, Some(to.a), Some(to.b)).0;
      && Inside(Merge3(rule.res, c, from.base, Some(from.a), Some(from.b)).0, n)
      && n.id == to.base.id && Makes(rule, authorA, authorB, c.before, to, n)
    decreases Size(from.base)
  {
    var m := Merge3(rule.res, c, from.base, Some(from.a), Some(from.b)).0;
    if from == to {
      RootStored(from.base, from.a, from.b);
      NodeMade(rule, authorA, authorB, c, from);
      assert ValidPath(m, []) && NodeAt(m, []) == m;
    } else {
      var cid := ReachedKid(from, to);
      var k := KidTrio(from, cid);
      SoundBelow(from, cid);
      ReachedMade(rule, authorA, authorB, c, k, to);
      MatchedMerged(rule.res, c, from, cid);
      InsideTrans(
        m, m, Merge3(rule.res, c, k.base, Some(k.a), Some(k.b)).0,
        Merge3(rule.res, c, to.base, Some(to.a), Some(to.b)).0);
    }
  }

  // Some node of the merged tree is what the merge makes of the three.
  ghost predicate MadeIn(
    rule: Rule, authorA: Author, authorB: Author, before: (Node, Node) -> bool, t: Trio, m: Node)
  {
    exists n :: Inside(m, n) && n.id == t.base.id && Makes(rule, authorA, authorB, before, t, n)
  }

  // On unique trees, relocations or not, whoever wrote the branches and whatever is in
  // conflict: the three versions of a node, met going down from the roots through children all
  // three list, are one node of the merged tree, each facet and the list of it settled, the
  // primary's where they clash.
  lemma {:induction false} MergedThroughout(
    authorA: Author, authorB: Author, before: (Node, Node) -> bool, base: Node, a: Node, b: Node, t: Trio)
    requires Sound3(Trio(base, a, b)) && Reached(Trio(base, a, b), t)
    ensures var rule := Rule(ResolveAuthor(authorA, authorB), false);
      MadeIn(
        rule, authorA, authorB, before, t, MergeAll(ResolveAuthor(authorA, authorB), before, base, a, b).0)
  {
    var rule := Rule(ResolveAuthor(authorA, authorB), false);
    ReachedMade(rule, authorA, authorB, ContextOf(base, a, b, before), Trio(base, a, b), t);
  }

  // In a clean merge nothing clashes there: every facet is the changed side's or else the
  // base's, and the list is not contested.
  lemma {:induction false} CleanThroughout(
    before: (Node, Node) -> bool, base: Node, a: Node, b: Node, t: Trio)
    requires Sound3(Trio(base, a, b)) && Reached(Trio(base, a, b), t) && Merge3Way(before, base, a, b).Merged?
    ensures MadeIn(
      Rule(Agnostic, true), Secondary(None), Secondary(None), before, t, Merge3Way(before, base, a, b).tree)
    ensures !ListContested(Ids(KidsOf(t.base)), Ids(KidsOf(t.a)), Ids(KidsOf(t.b)))
  {
    C.AgnosticVerdict(before, base, a, b);
    NothingTold(base, a, b, t);
    ReachedMade(
      Rule(Agnostic, true), Secondary(None), Secondary(None), ContextOf(base, a, b, before), Trio(base, a, b), t);
  }

  lemma {:induction false} NothingTold(base: Node, a: Node, b: Node, t: Trio)
    requires Reached(Trio(base, a, b), t) && C.Lists(Secondary(None), Secondary(None), base, a, b, [])
    ensures OwnCells(Agnostic, t.base, t.a, t.b) == []
    ensures !ListContested(Ids(KidsOf(t.base)), Ids(KidsOf(t.a)), Ids(KidsOf(t.b)))
  {
    if OwnCells(Agnostic, t.base, t.a, t.b) != [] {
      var cell := OwnCells(Agnostic, t.base, t.a, t.b)[0];
      OwnSays(Secondary(None), Secondary(None), Whole(a, b), t, cell);
      ToldIn(base, a, b, t, cell);
    }
    if ListContested(Ids(KidsOf(t.base)), Ids(KidsOf(t.a)), Ids(KidsOf(t.b))) {
      var cell := C.ListTold(Whole(a, b), t);
      ToldIn(base, a, b, t, cell);
    }
  }

  lemma {:induction false} ToldIn(base: Node, a: Node, b: Node, t: Trio, cell: Conflict)
    requires Reached(Trio(base, a, b), t) && ToldHere(Secondary(None), Secondary(None), Whole(a, b), t, cell)
    ensures CellTold(Secondary(None), Secondary(None), base, a, b, cell)
  {
    assert Told(Secondary(None), Secondary(None), Whole(a, b), Trio(base, a, b), cell);
  }
}
