// The cells a merge records, exactly: which they are and what each of them says.
module MergeTold {
  import opened Wrappers
  import opened Tree
  import opened Ordinal
  import opened Merge
  import S = ApplySafety
  import opened MergeLaws
  import opened MergeUnique
  import opened MergeContent
  import opened MergeOrder
  import opened MergeRepeats
  import E = MergeEnvelope
  import W = OpWrites
  import D = DiffRoundTrip

  // -- What one cell says ----------------------------------------------------

  // Both sides' texts with their tags, and the view of a pin when exactly one author is
  // primary: the winner, the loser and the loser's tag.
  predicate Says(
    authorA: Author, authorB: Author, cell: Conflict, cls: Class, base: Option<Text>, a: Option<Text>, b: Option<Text>)
  {
    && cell.cls == cls && cell.base == base
    && cell.a == Side(if a.Some? then a.value else Str(""), if authorA.Secondary? then authorA.tag else None)
    && cell.b == Side(if b.Some? then b.value else Str(""), if authorB.Secondary? then authorB.tag else None)
    && if authorA.Primary? && authorB.Secondary? then IsPinned(cell, a, b, authorB.tag)
       else if authorB.Primary? && authorA.Secondary? then IsPinned(cell, b, a, authorA.tag)
       else
         && !cell.primacyHeld && cell.primary == None && cell.secondary == None && cell.secondaryTag == None
         && cell.choices == if authorA.Primary? then [KeepBase] else [KeepBase, KeepA, KeepB]
  }

  predicate IsPinned(cell: Conflict, won: Option<Text>, lost: Option<Text>, tag: Option<string>) {
    && cell.primacyHeld && cell.primary == won && cell.secondary == lost && cell.secondaryTag == tag
    && cell.choices == [KeepPrimary, KeepSecondary, KeepBase]
  }

  lemma {:induction false} RecordSays(
    authorA: Author, authorB: Author, cell: Conflict, x: Id, facet: Facet, cls: Class, base: Option<Text>,
    a: Option<Text>, b: Option<Text>)
    ensures cell == Record(ResolveAuthor(authorA, authorB), x, facet, cls, base, a, b) <==>
      cell.nodeId == x && cell.facet == facet && Says(authorA, authorB, cell, cls, base, a, b)
  {
  }

  predicate Differ<T(==)>(base: T, a: T, b: T) {
    a != base && b != base && a != b
  }

  // A node with one facet and what the merge does not control.
  function Lone(n: Node, kind: Kind, state: State, access: Option<Fields>, tooltip: Option<string>): Node {
    Node(n.id, kind, None, state, access, tooltip, n.extras)
  }

  // A style member as a cell quotes it: at its default when absent, but for the two that read
  // as absent.
  function Quoted(n: Node, m: Member): Option<string> {
    if (m == Role || m == Voice) && (n.style.None? || m !in n.style.value) then None
    else Some(W.Reads(n.style, m))
  }

  function Quote(s: Option<string>): Option<Text> {
    if s.None? then None else Some(Str(s.value))
  }

  // Ids one after another, commas between them.
  function Commas(ids: seq<Id>): string {
    if |ids| == 0 then "" else if |ids| == 1 then ids[0] else Commas(ids[..|ids| - 1]) + "," + ids[|ids| - 1]
  }

  lemma {:induction false} JoinSnoc(ids: seq<Id>, x: Id)
    requires ids != []
    ensures Join(ids + [x]) == Join(ids) + "," + x
  {
    if |ids| > 1 {
      assert (ids + [x])[1..] == ids[1..] + [x];
      JoinSnoc(ids[1..], x);
    }
  }

  lemma {:induction false} JoinIs(ids: seq<Id>)
    ensures Join(ids) == Commas(ids)
    decreases |ids|
  {
    if |ids| > 1 {
      var front := ids[..|ids| - 1];
      assert ids == front + [ids[|ids| - 1]];
      JoinIs(front);
      JoinSnoc(front, ids[|ids| - 1]);
    }
  }

  // -- What is recorded at one node ------------------------------------------

  // Three versions of a node, and the two whole branches.
  datatype Trio = Trio(base: Node, a: Node, b: Node)

  datatype Whole = Whole(a: Node, b: Node)

  function Bare(n: Node): Kind {
    if IsLayoutTag(n.kind.tag) then n.kind.(kids := []) else n.kind
  }

  ghost predicate ProbeTold(authorA: Author, authorB: Author, cell: Conflict, base: Node, a: Node, b: Node) {
    && Differ(base, a, b)
    && Says(authorA, authorB, cell, ConcurrentEdit, Some(Bytes(base)), Some(Bytes(a)), Some(Bytes(b)))
  }

  ghost predicate KindTold(authorA: Author, authorB: Author, t: Trio, cell: Conflict) {
    ProbeTold(
      authorA, authorB, cell, Lone(t.base, Bare(t.base), NoState, None, None),
      Lone(t.a, Bare(t.a), NoState, None, None), Lone(t.b, Bare(t.b), NoState, None, None))
  }

  ghost predicate StateTold(authorA: Author, authorB: Author, t: Trio, cell: Conflict) {
    var shell := Bare(t.base);
    ProbeTold(
      authorA, authorB, cell, Lone(t.base, shell, t.base.state, None, None), Lone(t.a, shell, t.a.state, None, None),
      Lone(t.b, shell, t.b.state, None, None))
  }

  ghost predicate AccessTold(authorA: Author, authorB: Author, t: Trio, cell: Conflict) {
    var shell := Bare(t.base);
    ProbeTold(
      authorA, authorB, cell, Lone(t.base, shell, NoState, t.base.access, None),
      Lone(t.a, shell, NoState, t.a.access, None), Lone(t.b, shell, NoState, t.b.access, None))
  }

  ghost predicate TooltipTold(authorA: Author, authorB: Author, t: Trio, cell: Conflict) {
    var shell := Bare(t.base);
    ProbeTold(
      authorA, authorB, cell, Lone(t.base, shell, NoState, None, t.base.tooltip),
      Lone(t.a, shell, NoState, None, t.a.tooltip), Lone(t.b, shell, NoState, None, t.b.tooltip))
  }

  ghost predicate StyleTold(authorA: Author, authorB: Author, t: Trio, m: Member, cell: Conflict) {
    var base, a, b := Quoted(t.base, m), Quoted(t.a, m), Quoted(t.b, m);
    Differ(base, a, b) && Says(authorA, authorB, cell, ConcurrentEdit, Quote(base), Quote(a), Quote(b))
  }

  ghost predicate ListTold(authorA: Author, authorB: Author, t: Trio, cell: Conflict) {
    var base, a, b := Ids(KidsOf(t.base)), Ids(KidsOf(t.a)), Ids(KidsOf(t.b));
    && ListContested(base, a, b)
    && Says(
      authorA, authorB, cell, ReorderVsStructural, Some(Str(Commas(base))), Some(Str(Commas(a))), Some(Str(Commas(b))))
  }

  // A child one branch edited and the other holds nowhere.
  ghost predicate GoneTold(authorA: Author, authorB: Author, whole: Whole, t: Trio, x: Id, cell: Conflict) {
    && x in Ids(KidsOf(t.base))
    && var was := Some(Bytes(Kid(t.base, x)));
       || (&& x in Ids(KidsOf(t.a)) && !Holds(whole.b, x) && x !in Ids(KidsOf(t.b)) && Kid(t.a, x) != Kid(t.base, x)
           && Says(authorA, authorB, cell, DeleteModify, was, Some(Bytes(Kid(t.a, x))), Some(Str(""))))
       || (&& x in Ids(KidsOf(t.b)) && !Holds(whole.a, x) && x !in Ids(KidsOf(t.a)) && Kid(t.b, x) != Kid(t.base, x)
           && Says(authorA, authorB, cell, DeleteModify, was, Some(Str("")), Some(Bytes(Kid(t.b, x)))))
  }

  // A child both branches added, differently, where the merged list has it: the two lists are
  // the same, or one of them wins by a pin.
  ghost predicate AddedTold(authorA: Author, authorB: Author, t: Trio, x: Id, cell: Conflict) {
    && x !in Ids(KidsOf(t.base)) && x in Ids(KidsOf(t.a)) && x in Ids(KidsOf(t.b)) && Kid(t.a, x) != Kid(t.b, x)
    && (Ids(KidsOf(t.a)) == Ids(KidsOf(t.b)) || authorA.Primary? != authorB.Primary?)
    && Says(
      authorA, authorB, cell, ConcurrentEdit, Some(Str("")), Some(Bytes(Kid(t.a, x))), Some(Bytes(Kid(t.b, x))))
  }

  // The cell is recorded at these three versions of a node.
  ghost predicate ToldHere(authorA: Author, authorB: Author, whole: Whole, t: Trio, cell: Conflict) {
    match cell.facet
    case KindFacet => cell.nodeId == t.base.id && KindTold(authorA, authorB, t, cell)
    case StateFacet => cell.nodeId == t.base.id && StateTold(authorA, authorB, t, cell)
    case AccessFacet => cell.nodeId == t.base.id && AccessTold(authorA, authorB, t, cell)
    case TooltipFacet => cell.nodeId == t.base.id && TooltipTold(authorA, authorB, t, cell)
    case StyleFacet(m) => cell.nodeId == t.base.id && StyleTold(authorA, authorB, t, m, cell)
    case ChildrenFacet => cell.nodeId == t.base.id && ListTold(authorA, authorB, t, cell)
    case NodeFacet => GoneTold(authorA, authorB, whole, t, cell.nodeId, cell)
    case InsertFacet => AddedTold(authorA, authorB, t, cell.nodeId, cell)
    case MoveFacet => false
  }

  // -- The recursion goes from node to matched child -------------------------

  ghost predicate Reached(from: Trio, to: Trio)
    decreases Size(from.base), 1
  {
    from == to || exists cid :: ReachedVia(from, cid, to)
  }

  ghost predicate ReachedVia(from: Trio, cid: Id, to: Trio)
    decreases Size(from.base), 0
  {
    Matched(from.base, from.a, from.b, cid) && Reached(KidTrio(from, cid), to)
  }

  function KidTrio(t: Trio, cid: Id): (k: Trio)
    requires Matched(t.base, t.a, t.b, cid)
    ensures Size(k.base) < Size(t.base)
  {
    Trio(Kid(t.base, cid), Kid(t.a, cid), Kid(t.b, cid))
  }

  ghost predicate Told(authorA: Author, authorB: Author, whole: Whole, from: Trio, cell: Conflict) {
    exists to :: Reached(from, to) && ToldHere(authorA, authorB, whole, to, cell)
  }

  lemma {:induction false} ReachedKid(from: Trio, to: Trio) returns (cid: Id)
    requires Reached(from, to) && from != to
    ensures Matched(from.base, from.a, from.b, cid) && Reached(KidTrio(from, cid), to)
  {
    cid :| ReachedVia(from, cid, to);
  }

  lemma {:induction false} ToldSplit(authorA: Author, authorB: Author, whole: Whole, t: Trio, cell: Conflict)
    ensures Told(authorA, authorB, whole, t, cell) <==>
      ToldHere(authorA, authorB, whole, t, cell) || exists cid :: ToldBelow(authorA, authorB, whole, t, cid, cell)
  {
    if to :| Reached(t, to) && ToldHere(authorA, authorB, whole, to, cell) {
      if to != t {
        var cid := ReachedKid(t, to);
        assert ToldBelow(authorA, authorB, whole, t, cid, cell);
      }
    }
    if cid :| ToldBelow(authorA, authorB, whole, t, cid, cell) {
      var to :| Reached(KidTrio(t, cid), to) && ToldHere(authorA, authorB, whole, to, cell);
      assert ReachedVia(t, cid, to);
      assert Reached(t, to);
    }
    if ToldHere(authorA, authorB, whole, t, cell) {
      assert Reached(t, t);
    }
  }

  ghost predicate ToldBelow(authorA: Author, authorB: Author, whole: Whole, t: Trio, cid: Id, cell: Conflict) {
    Matched(t.base, t.a, t.b, cid) && Told(authorA, authorB, whole, KidTrio(t, cid), cell)
  }

  // -- Nothing is recorded where a branch is idle ----------------------------

  lemma {:induction false} IdleSilent(
    res: Resolution, c: Context, base: Node, a: Node, b: Node)
    requires a == base || b == base
    ensures Merge3(res, c, base, Some(a), Some(b)).1 == []
    decreases Size(base), 1, 0
  {
    var order := MergedOrder(res, Ids(KidsOf(base)), Ids(KidsOf(a)), Ids(KidsOf(b)));
    IdleOwn(res, base, a, b);
    IdleDeletes(res, c, Ids(KidsOf(base)), base, a, b);
    IdleKids(res, c, order, base, a, b);
  }

  lemma {:induction false} MissingIsBase(
    res: Resolution, c: Context, base: Node, aOpt: Option<Node>, bOpt: Option<Node>)
    ensures Merge3(res, c, base, aOpt, bOpt)
         == Merge3(res, c, base, Some(OrBase(aOpt, base)), Some(OrBase(bOpt, base)))
  {
  }

  lemma {:induction false} IdleOwn(res: Resolution, base: Node, a: Node, b: Node)
    requires a == base || b == base
    ensures OwnCells(res, base, a, b) == []
  {
    NoStyleCells(res, base, a, b, StyleOrder);
  }

  lemma {:induction false} IdleDeletes(res: Resolution, c: Context, ids: seq<Id>, base: Node, a: Node, b: Node)
    requires a == base || b == base
    requires forall x | x in ids :: x in Ids(KidsOf(base))
    ensures DeleteCells(res, c, ids, KidsOf(base), KidsOf(a), KidsOf(b)) == []
  {
    if ids != [] {
      IdleDeletes(res, c, ids[1..], base, a, b);
    }
  }

  lemma {:induction false} IdleKids(res: Resolution, c: Context, order: seq<Id>, base: Node, a: Node, b: Node)
    requires a == base || b == base
    ensures MergeKids(res, c, order, base, KidsOf(a), KidsOf(b)).1 == []
    decreases Size(base), 0, |order|
  {
    if order != [] {
      var bc, ac, bb := ById(KidsOf(base), order[0]), ById(KidsOf(a), order[0]), ById(KidsOf(b), order[0]);
      if bc.Some? {
        KidSmaller(base, bc.value);
        IdleSilent(res, c, bc.value, OrBase(ac, bc.value), OrBase(bb, bc.value));
        MissingIsBase(res, c, bc.value, ac, bb);
      }
      IdleKids(res, c, order[1..], base, a, b);
    }
  }

  // -- The cells of one run --------------------------------------------------

  // The three versions, where each repeats no id, inside the two branches.
  ghost predicate InScene(c: Context, whole: Whole, t: Trio) {
    && t.base.id == t.a.id == t.b.id && UniqueIds(t.base) && UniqueIds(t.a) && UniqueIds(t.b)
    && (forall x :: x in c.a <==> Holds(whole.a, x)) && (forall x :: x in c.b <==> Holds(whole.b, x))
  }

  lemma {:induction false} SceneBelow(c: Context, whole: Whole, t: Trio, cid: Id)
    requires InScene(c, whole, t) && Matched(t.base, t.a, t.b, cid)
    ensures InScene(c, whole, KidTrio(t, cid))
  {
    UniqueKids(t.base);
    UniqueKids(t.a);
    UniqueKids(t.b);
  }

  lemma {:induction false} ProbeSays(
    authorA: Author, authorB: Author, x: Id, facet: Facet, base: Node, a: Node, b: Node, cell: Conflict)
    ensures cell in ProbeCell(ResolveAuthor(authorA, authorB), x, facet, base, a, b) <==>
      cell.nodeId == x && cell.facet == facet && ProbeTold(authorA, authorB, cell, base, a, b)
  {
    RecordSays(
      authorA, authorB, cell, x, facet, ConcurrentEdit, Some(Bytes(base)), Some(Bytes(a)), Some(Bytes(b)));
  }

  lemma {:induction false} FieldIsQuoted(n: Node, m: Member)
    ensures StyleField(n, m) == Quoted(n, m)
  {
  }

  lemma {:induction false} StyleSays(authorA: Author, authorB: Author, t: Trio, m: Member, cell: Conflict)
    ensures cell in StyleCell(ResolveAuthor(authorA, authorB), t.base, t.a, t.b, m) <==>
      cell.nodeId == t.base.id && cell.facet == StyleFacet(m) && StyleTold(authorA, authorB, t, m, cell)
  {
    FieldIsQuoted(t.base, m);
    FieldIsQuoted(t.a, m);
    FieldIsQuoted(t.b, m);
    var base, a, b := StyleField(t.base, m), StyleField(t.a, m), StyleField(t.b, m);
    RecordSays(
      authorA, authorB, cell, t.base.id, StyleFacet(m), ConcurrentEdit, StrText(base), StrText(a), StrText(b));
  }

  lemma {:induction false} StylesSay(
    authorA: Author, authorB: Author, t: Trio, members: seq<Member>, cell: Conflict)
    ensures cell in StyleCells(ResolveAuthor(authorA, authorB), t.base, t.a, t.b, members) <==>
      && cell.nodeId == t.base.id && cell.facet.StyleFacet? && cell.facet.member in members
      && StyleTold(authorA, authorB, t, cell.facet.member, cell)
  {
    if members != [] {
      StyleSays(authorA, authorB, t, members[0], cell);
      StylesSay(authorA, authorB, t, members[1..], cell);
      assert members == [members[0]] + members[1..];
    }
  }

  lemma {:induction false} ProbesAre(t: Trio, n: Node)
    ensures KindProbe(n) == Lone(n, Bare(n), NoState, None, None)
    ensures StateProbe(Childless(t.base.kind), n) == Lone(n, Bare(t.base), n.state, None, None)
    ensures AccessProbe(Childless(t.base.kind), n) == Lone(n, Bare(t.base), NoState, n.access, None)
    ensures TooltipProbe(Childless(t.base.kind), n) == Lone(n, Bare(t.base), NoState, None, n.tooltip)
  {
  }

  // A facet of the node itself.
  lemma {:induction false} OwnSays(authorA: Author, authorB: Author, whole: Whole, t: Trio, cell: Conflict)
    ensures cell in OwnCells(ResolveAuthor(authorA, authorB), t.base, t.a, t.b) <==>
      OwnFacet(cell.facet) && ToldHere(authorA, authorB, whole, t, cell)
  {
    var x, shell := t.base.id, Childless(t.base.kind);
    ProbesAre(t, t.base);
    ProbesAre(t, t.a);
    ProbesAre(t, t.b);
    StylesSay(authorA, authorB, t, StyleOrder, cell);
    if cell.facet.StyleFacet? {
      Ordered(cell.facet.member);
    }
    ProbeSays(authorA, authorB, x, KindFacet, KindProbe(t.base), KindProbe(t.a), KindProbe(t.b), cell);
    ProbeSays(
      authorA, authorB, x, StateFacet, StateProbe(shell, t.base), StateProbe(shell, t.a), StateProbe(shell, t.b), cell);
    ProbeSays(
      authorA, authorB, x, AccessFacet, AccessProbe(shell, t.base), AccessProbe(shell, t.a), AccessProbe(shell, t.b),
      cell);
    ProbeSays(
      authorA, authorB, x, TooltipFacet, TooltipProbe(shell, t.base), TooltipProbe(shell, t.a),
      TooltipProbe(shell, t.b), cell);
  }

  lemma {:induction false} ListSays(authorA: Author, authorB: Author, c: Context, whole: Whole, t: Trio, cell: Conflict)
    requires InScene(c, whole, t)
    ensures
      cell in OrderCell(
        ResolveAuthor(authorA, authorB), t.base.id, Ids(KidsOf(t.base)), Ids(KidsOf(t.a)), Ids(KidsOf(t.b))) <==>
      cell.facet == ChildrenFacet && ToldHere(authorA, authorB, whole, t, cell)
  {
    var base, a, b := Ids(KidsOf(t.base)), Ids(KidsOf(t.a)), Ids(KidsOf(t.b));
    E.KidsNoRepeat(t.base);
    E.KidsNoRepeat(t.a);
    E.KidsNoRepeat(t.b);
    ContestedIs(base, a, b);
    JoinIs(base);
    JoinIs(a);
    JoinIs(b);
    RecordSays(
      authorA, authorB, cell, t.base.id, ChildrenFacet, ReorderVsStructural, Some(Str(Join(base))), Some(Str(Join(a))),
      Some(Str(Join(b))));
  }

  lemma {:induction false} DeletesHave(
    res: Resolution, c: Context, ids: seq<Id>, base: seq<Node>, a: seq<Node>, b: seq<Node>, cell: Conflict)
    requires forall x | x in ids :: x in Ids(base)
    ensures cell in DeleteCells(res, c, ids, base, a, b) <==>
      cell.nodeId in ids && DeleteHas(res, c, base, a, b, cell)
  {
    if ids != [] {
      DeletesHave(res, c, ids[1..], base, a, b, cell);
      assert ids == [ids[0]] + ids[1..];
      assert cell in DeleteCell(res, c, ids[0], ById(base, ids[0]), ById(a, ids[0]), ById(b, ids[0])) ==>
        cell.nodeId == ids[0];
    }
  }

  ghost predicate DeleteHas(
    res: Resolution, c: Context, base: seq<Node>, a: seq<Node>, b: seq<Node>, cell: Conflict)
  {
    var x := cell.nodeId;
    x in Ids(base) && cell in DeleteCell(res, c, x, ById(base, x), ById(a, x), ById(b, x))
  }

  lemma {:induction false} GoneSays(authorA: Author, authorB: Author, c: Context, whole: Whole, t: Trio, cell: Conflict)
    requires InScene(c, whole, t)
    ensures
      cell in DeleteCells(
        ResolveAuthor(authorA, authorB), c, Ids(KidsOf(t.base)), KidsOf(t.base), KidsOf(t.a), KidsOf(t.b)) <==>
      cell.facet == NodeFacet && ToldHere(authorA, authorB, whole, t, cell)
  {
    var res, x := ResolveAuthor(authorA, authorB), cell.nodeId;
    DeletesHave(res, c, Ids(KidsOf(t.base)), KidsOf(t.base), KidsOf(t.a), KidsOf(t.b), cell);
    if x in Ids(KidsOf(t.base)) {
      GoneCell(authorA, authorB, c, whole, t, x, cell);
    }
  }

  lemma {:induction false} GoneCell(
    authorA: Author, authorB: Author, c: Context, whole: Whole, t: Trio, x: Id, cell: Conflict)
    requires InScene(c, whole, t) && x in Ids(KidsOf(t.base))
    ensures
      cell in DeleteCell(
        ResolveAuthor(authorA, authorB), c, x, ById(KidsOf(t.base), x), ById(KidsOf(t.a), x), ById(KidsOf(t.b), x)) <==>
      cell.nodeId == x && cell.facet == NodeFacet && GoneTold(authorA, authorB, whole, t, x, cell)
  {
    var was, ac, bb := Some(Bytes(Kid(t.base, x))), ById(KidsOf(t.a), x), ById(KidsOf(t.b), x);
    if ac.Some? && bb.None? {
      RecordSays(authorA, authorB, cell, x, NodeFacet, DeleteModify, was, Some(Bytes(ac.value)), Some(Str("")));
    } else if ac.None? && bb.Some? {
      RecordSays(authorA, authorB, cell, x, NodeFacet, DeleteModify, was, Some(Str("")), Some(Bytes(bb.value)));
    }
  }

  // -- The children ----------------------------------------------------------

  lemma {:induction false} KidsHave(
    res: Resolution, c: Context, order: seq<Id>, base: Node, a: seq<Node>, b: seq<Node>, cell: Conflict)
    ensures cell in MergeKids(res, c, order, base, a, b).1 <==>
      exists x :: x in order && cell in MergeKid(res, c, x, base, a, b).1
  {
    if order != [] {
      var rest := order[1..];
      KidsHave(res, c, rest, base, a, b, cell);
      assert order == [order[0]] + rest;
      if x :| x in rest && cell in MergeKid(res, c, x, base, a, b).1 {
        assert x in order;
      }
      if cell in MergeKid(res, c, order[0], base, a, b).1 {
        assert order[0] in order;
      }
    }
  }

  // A child in both new lists is in the merged one when they are the same, or one is pinned.
  lemma {:induction false} AddedListed(res: Resolution, base: seq<Id>, a: seq<Id>, b: seq<Id>, x: Id)
    requires x !in base && x in a && x in b
    ensures x in MergedOrder(res, base, a, b) <==> a == b || res.pinHeld
  {
    ExceptIs(a, ToSet(base));
    ExceptIs(b, ToSet(base));
    assert a != base && b != base;
    assert x in ToSet(Except(a, ToSet(base))) && x in ToSet(Except(b, ToSet(base)));
    assert !DisjointAdditions(base, a, b);
  }

  lemma {:induction false} FreshKid(
    authorA: Author, authorB: Author, c: Context, t: Trio, x: Id, cell: Conflict)
    requires x !in Ids(KidsOf(t.base))
    ensures var res := ResolveAuthor(authorA, authorB);
      && x in MergedOrder(res, Ids(KidsOf(t.base)), Ids(KidsOf(t.a)), Ids(KidsOf(t.b)))
      && cell in MergeKid(res, c, x, t.base, KidsOf(t.a), KidsOf(t.b)).1 <==>
        cell.nodeId == x && cell.facet == InsertFacet && AddedTold(authorA, authorB, t, x, cell)
  {
    var res := ResolveAuthor(authorA, authorB);
    var ac, bb := ById(KidsOf(t.a), x), ById(KidsOf(t.b), x);
    if ac.Some? && bb.Some? {
      AddedListed(res, Ids(KidsOf(t.base)), Ids(KidsOf(t.a)), Ids(KidsOf(t.b)), x);
      RecordSays(
        authorA, authorB, cell, x, InsertFacet, ConcurrentEdit, Some(Str("")), Some(Bytes(ac.value)),
        Some(Bytes(bb.value)));
    }
  }

  // A base child one branch lacks records nothing.
  lemma {:induction false} LoneKid(res: Resolution, c: Context, t: Trio, x: Id)
    requires x in Ids(KidsOf(t.base)) && (x !in Ids(KidsOf(t.a)) || x !in Ids(KidsOf(t.b)))
    ensures MergeKid(res, c, x, t.base, KidsOf(t.a), KidsOf(t.b)).1 == []
  {
    var bc, ac, bb := ById(KidsOf(t.base), x).value, ById(KidsOf(t.a), x), ById(KidsOf(t.b), x);
    MissingIsBase(res, c, bc, ac, bb);
    IdleSilent(res, c, bc, OrBase(ac, bc), OrBase(bb, bc));
  }

  lemma {:induction false} KidTells(
    authorA: Author, authorB: Author, c: Context, whole: Whole, t: Trio, x: Id, cell: Conflict)
    requires InScene(c, whole, t)
    ensures var res := ResolveAuthor(authorA, authorB);
      && x in MergedOrder(res, Ids(KidsOf(t.base)), Ids(KidsOf(t.a)), Ids(KidsOf(t.b)))
      && cell in MergeKid(res, c, x, t.base, KidsOf(t.a), KidsOf(t.b)).1 <==>
        Inserted(authorA, authorB, t, x, cell) || ToldBelow(authorA, authorB, whole, t, x, cell)
    decreases Size(t.base), 0
  {
    var res := ResolveAuthor(authorA, authorB);
    if x !in Ids(KidsOf(t.base)) {
      FreshKid(authorA, authorB, c, t, x, cell);
    } else if !Matched(t.base, t.a, t.b, x) {
      LoneKid(res, c, t, x);
    } else {
      OrderKeeps(res, Ids(KidsOf(t.base)), Ids(KidsOf(t.a)), Ids(KidsOf(t.b)), x);
      SceneBelow(c, whole, t, x);
      RunTells(authorA, authorB, c, whole, KidTrio(t, x), cell);
    }
  }

  ghost predicate Inserted(authorA: Author, authorB: Author, t: Trio, x: Id, cell: Conflict) {
    cell.nodeId == x && cell.facet == InsertFacet && AddedTold(authorA, authorB, t, x, cell)
  }

  lemma {:induction false} KidsTell(
    authorA: Author, authorB: Author, c: Context, whole: Whole, t: Trio, cell: Conflict)
    requires InScene(c, whole, t)
    ensures var res := ResolveAuthor(authorA, authorB);
      var order := MergedOrder(res, Ids(KidsOf(t.base)), Ids(KidsOf(t.a)), Ids(KidsOf(t.b)));
      cell in MergeKids(res, c, order, t.base, KidsOf(t.a), KidsOf(t.b)).1 <==>
        || Inserted(authorA, authorB, t, cell.nodeId, cell)
        || exists cid :: ToldBelow(authorA, authorB, whole, t, cid, cell)
    decreases Size(t.base), 1
  {
    var res := ResolveAuthor(authorA, authorB);
    var order := MergedOrder(res, Ids(KidsOf(t.base)), Ids(KidsOf(t.a)), Ids(KidsOf(t.b)));
    KidsHave(res, c, order, t.base, KidsOf(t.a), KidsOf(t.b), cell);
    forall x
      ensures x in order && cell in MergeKid(res, c, x, t.base, KidsOf(t.a), KidsOf(t.b)).1 <==>
        Inserted(authorA, authorB, t, x, cell) || ToldBelow(authorA, authorB, whole, t, x, cell)
    {
      KidTells(authorA, authorB, c, whole, t, x, cell);
    }
  }

  // The recursion records a cell exactly where it is told.
  lemma {:induction false} RunTells(
    authorA: Author, authorB: Author, c: Context, whole: Whole, t: Trio, cell: Conflict)
    requires InScene(c, whole, t)
    ensures cell in Merge3(ResolveAuthor(authorA, authorB), c, t.base, Some(t.a), Some(t.b)).1 <==>
      Told(authorA, authorB, whole, t, cell)
    decreases Size(t.base), 2
  {
    OwnSays(authorA, authorB, whole, t, cell);
    GoneSays(authorA, authorB, c, whole, t, cell);
    ListSays(authorA, authorB, c, whole, t, cell);
    KidsTell(authorA, authorB, c, whole, t, cell);
    InsertSays(authorA, authorB, whole, t, cell);
    ToldSplit(authorA, authorB, whole, t, cell);
    InFour(ResolveAuthor(authorA, authorB), c, t, cell);
  }

  lemma {:induction false} InsertSays(authorA: Author, authorB: Author, whole: Whole, t: Trio, cell: Conflict)
    ensures Inserted(authorA, authorB, t, cell.nodeId, cell) <==>
      cell.facet == InsertFacet && ToldHere(authorA, authorB, whole, t, cell)
    ensures ToldHere(authorA, authorB, whole, t, cell) ==>
      OwnFacet(cell.facet) || cell.facet == NodeFacet || cell.facet == ChildrenFacet || cell.facet == InsertFacet
  {
  }

  lemma {:induction false} InFour(res: Resolution, c: Context, t: Trio, cell: Conflict)
    ensures var base, a, b := Ids(KidsOf(t.base)), Ids(KidsOf(t.a)), Ids(KidsOf(t.b));
      cell in Merge3(res, c, t.base, Some(t.a), Some(t.b)).1 <==>
        || cell in OwnCells(res, t.base, t.a, t.b)
        || cell in DeleteCells(res, c, base, KidsOf(t.base), KidsOf(t.a), KidsOf(t.b))
        || cell in OrderCell(res, t.base.id, base, a, b)
        || cell in MergeKids(res, c, MergedOrder(res, base, a, b), t.base, KidsOf(t.a), KidsOf(t.b)).1
  {
  }

  // -- Moved nodes -----------------------------------------------------------

  // The node the id hangs under; none for the root.
  ghost predicate HangsUnder(n: Node, x: Id, parent: Id) {
    if x == n.id then parent == "" else ListedAt(n, x, parent)
  }

  ghost predicate ListedAt(n: Node, x: Id, parent: Id) {
    exists p :: ValidPath(n, p) && NodeAt(n, p).id == parent && x in Ids(KidsOf(NodeAt(n, p)))
  }

  lemma {:induction false} PlacementRoot(n: Node, parent: Id)
    requires UniqueIds(n)
    ensures n.id in PlacementOf(n, parent) && PlacementOf(n, parent)[n.id] == parent
  {
    forall c | c in KidsOf(n) ensures !Holds(c, n.id) {
      RootOnce(n, c);
    }
    NotPlaced(KidsOf(n), n.id, n.id);
  }

  // The child that holds the id decides where it is placed.
  lemma {:induction false} PlacementKid(n: Node, parent: Id, c: Node, x: Id)
    requires UniqueIds(n) && c in KidsOf(n) && Holds(c, x)
    ensures x in PlacementOf(n, parent) && x in PlacementOf(c, n.id)
    ensures PlacementOf(n, parent)[x] == PlacementOf(c, n.id)[x]
  {
    UniqueKids(n);
    var i := KidAt(n, c);
    forall d | d in KidsOf(n) && Holds(d, x) ensures d == c {
      E.OneHolder(n, c, d, x);
    }
    PlacedIn(KidsOf(n), n.id, i, x);
    RootOnce(n, c);
  }

  lemma {:induction false} ListedBelow(n: Node, c: Node, x: Id, parent: Id)
    requires c in KidsOf(n) && ListedAt(c, x, parent)
    ensures ListedAt(n, x, parent)
  {
    var i := KidAt(n, c);
    var p: Path :| ValidPath(c, p) && NodeAt(c, p).id == parent && x in Ids(KidsOf(NodeAt(c, p)));
    BelowSlot(n, i, p);
  }

  lemma {:induction false} PlacementBelow(n: Node, parent: Id, x: Id)
    requires UniqueIds(n) && Holds(n, x) && x != n.id
    ensures x in PlacementOf(n, parent) && ListedAt(n, x, PlacementOf(n, parent)[x])
    decreases Size(n)
  {
    HoldsSplit(n, x);
    var c :| c in KidsOf(n) && Holds(c, x);
    UniqueKids(n);
    KidSmaller(n, c);
    PlacementKid(n, parent, c, x);
    if x == c.id {
      PlacementRoot(c, n.id);
      var i := KidAt(n, c);
      assert ValidPath(n, []) && NodeAt(n, []) == n && Ids(KidsOf(n))[i] == x;
    } else {
      PlacementBelow(c, n.id, x);
      ListedBelow(n, c, x, PlacementOf(n, parent)[x]);
    }
  }

  lemma {:induction false} NotPlaced(s: seq<Node>, parent: Id, x: Id)
    requires forall c | c in s :: !Holds(c, x)
    ensures x !in PlacementSeq(s, parent)
  {
    PlacementIndexedSeq(s, parent);
    NotIndexed(s, x);
  }

  lemma {:induction false} PlacedIn(s: seq<Node>, parent: Id, i: nat, x: Id)
    requires i < |s| && Holds(s[i], x) && forall d | d in s && Holds(d, x) :: d == s[i]
    requires forall j, k | 0 <= j < k < |s| :: s[j].id != s[k].id
    ensures x in PlacementOf(s[i], parent) && x in PlacementSeq(s, parent)
    ensures PlacementSeq(s, parent)[x] == PlacementOf(s[i], parent)[x]
  {
    PlacementHolds(s[i], parent);
    var rest := s[1..];
    assert forall j | 0 <= j < |rest| :: rest[j] == s[j + 1];
    if i == 0 {
      forall d | d in rest ensures !Holds(d, x) {
        var j :| 0 <= j < |rest| && rest[j] == d;
        assert s[j + 1].id != s[0].id;
      }
      NotPlaced(rest, parent, x);
    } else {
      assert rest[i - 1] == s[i];
      PlacedIn(rest, parent, i - 1, x);
    }
  }

  // On a unique tree the placement names the parent, and an id has one.
  lemma {:induction false} PlacementMeans(n: Node, x: Id, parent: Id)
    requires UniqueIds(n) && Holds(n, x)
    ensures x in PlacementOf(n, "") && (PlacementOf(n, "")[x] == parent <==> HangsUnder(n, x, parent))
  {
    if x == n.id {
      PlacementRoot(n, "");
    } else {
      PlacementBelow(n, "", x);
      if ListedAt(n, x, parent) {
        OneParent(n, x, parent, PlacementOf(n, "")[x]);
      }
    }
  }

  lemma {:induction false} ListedPath(n: Node, x: Id, parent: Id) returns (p: Path, i: nat)
    requires ListedAt(n, x, parent)
    ensures ValidPath(n, p) && NodeAt(n, p).id == parent
    ensures ValidPath(n, p + [i]) && NodeAt(n, p + [i]).id == x
  {
    p :| ValidPath(n, p) && NodeAt(n, p).id == parent && x in Ids(KidsOf(NodeAt(n, p)));
    i :| 0 <= i < |KidsOf(NodeAt(n, p))| && Ids(KidsOf(NodeAt(n, p)))[i] == x;
    D.KidPath(n, p, i);
  }

  lemma {:induction false} OneParent(n: Node, x: Id, parent: Id, other: Id)
    requires UniqueIds(n) && ListedAt(n, x, parent) && ListedAt(n, x, other)
    ensures parent == other
  {
    var p, i := ListedPath(n, x, parent);
    var q, j := ListedPath(n, x, other);
    UniquePath(n, p + [i], q + [j]);
    assert (p + [i])[..|p|] == p && (q + [j])[..|q|] == q;
  }

  // The node held under an id is the one a search finds.
  lemma {:induction false} SubIsFound(n: Node, x: Id)
    requires UniqueIds(n) && Holds(n, x)
    ensures FindNode(x, n) == Some(Sub(n, x))
  {
    var p := SubPath(n, x);
    D.PathOfId(n, p);
  }

  lemma {:induction false} SubPath(n: Node, x: Id) returns (p: Path)
    requires UniqueIds(n) && Holds(n, x)
    ensures ValidPath(n, p) && NodeAt(n, p) == Sub(n, x) && NodeAt(n, p).id == x
    decreases Size(n)
  {
    UniqueKids(n);
    HoldsSplit(n, x);
    if x == n.id {
      forall c | c in KidsOf(n) ensures !Holds(c, x) {
        RootOnce(n, c);
      }
      SubRoot(n);
      p := [];
    } else {
      var c :| c in KidsOf(n) && Holds(c, x);
      var i := KidAt(n, c);
      forall j | 0 <= j < |KidsOf(n)| && j != i ensures !Holds(KidsOf(n)[j], x) {
        if Holds(KidsOf(n)[j], x) {
          E.OneHolder(n, c, KidsOf(n)[j], x);
          assert false;
        }
      }
      SubKid(n, i, x);
      KidSmaller(n, c);
      var q := SubPath(c, x);
      BelowSlot(n, i, q);
      p := [i] + q;
    }
  }

  // The two branches hold the node under different parents, and both moved it or they hold it
  // with different content: told as a move, and with different content as a node too.
  ghost predicate MovedApart(
    authorA: Author, authorB: Author, t: Trio, cell: Conflict, parent: Id, parentA: Id, parentB: Id)
  {
    var x := cell.nodeId;
    && Holds(t.base, x) && Holds(t.a, x) && Holds(t.b, x)
    && HangsUnder(t.base, x, parent) && HangsUnder(t.a, x, parentA) && HangsUnder(t.b, x, parentB)
    && parentA != parentB
    && ((parentA != parent && parentB != parent) || Sub(t.a, x) != Sub(t.b, x))
    && match cell.facet
       case MoveFacet =>
         Says(authorA, authorB, cell, ConcurrentMove, Some(Str(parent)), Some(Str(parentA)), Some(Str(parentB)))
       case NodeFacet =>
         && Sub(t.a, x) != Sub(t.b, x)
         && Says(
           authorA, authorB, cell, ConcurrentMove, Some(Bytes(Sub(t.base, x))), Some(Bytes(Sub(t.a, x))),
           Some(Bytes(Sub(t.b, x))))
       case _ => false
  }

  ghost predicate MoveTold(authorA: Author, authorB: Author, t: Trio, cell: Conflict) {
    exists parent, parentA, parentB :: MovedApart(authorA, authorB, t, cell, parent, parentA, parentB)
  }

  lemma {:induction false} HeldIndexed(n: Node, x: Id)
    ensures Holds(n, x) <==> x in NodeIndex(n)
    ensures Holds(n, x) ==> Sub(n, x) == NodeIndex(n)[x]
  {
    KidIdsIndexed(n);
  }

  lemma {:induction false} MoveCellsAre(res: Resolution, t: Trio, x: Id, cell: Conflict)
    requires x in NodeIndex(t.base) && x in NodeIndex(t.a) && x in NodeIndex(t.b)
    requires x in PlacementOf(t.base, "") && x in PlacementOf(t.a, "") && x in PlacementOf(t.b, "")
    ensures var parent := PlacementOf(t.base, "")[x];
      var parentA, parentB := PlacementOf(t.a, "")[x], PlacementOf(t.b, "")[x];
      var was, inA, inB := NodeIndex(t.base)[x], NodeIndex(t.a)[x], NodeIndex(t.b)[x];
      cell in MoveCells(res, t.base, t.a, t.b, x) <==>
        && parentA != parentB && ((parentA != parent && parentB != parent) || inA != inB)
        && (|| cell == Record(
                 res, x, MoveFacet, ConcurrentMove, Some(Str(parent)), Some(Str(parentA)), Some(Str(parentB)))
            || (&& inA != inB
                && cell == Record(
                     res, x, NodeFacet, ConcurrentMove, Some(Bytes(was)), Some(Bytes(inA)), Some(Bytes(inB)))))
  {
  }

  lemma {:induction false} MovesSay(authorA: Author, authorB: Author, t: Trio, x: Id, cell: Conflict)
    requires UniqueIds(t.base) && UniqueIds(t.a) && UniqueIds(t.b) && Holds(t.base, x) && Holds(t.a, x) && Holds(t.b, x)
    requires x in PlacementOf(t.base, "") && x in PlacementOf(t.a, "") && x in PlacementOf(t.b, "")
    ensures cell in MoveCells(ResolveAuthor(authorA, authorB), t.base, t.a, t.b, x) <==>
      cell.nodeId == x && MovedApart(
        authorA, authorB, t, cell, PlacementOf(t.base, "")[x], PlacementOf(t.a, "")[x], PlacementOf(t.b, "")[x])
  {
    var parent, parentA, parentB := PlacementOf(t.base, "")[x], PlacementOf(t.a, "")[x], PlacementOf(t.b, "")[x];
    PlacementMeans(t.base, x, parent);
    PlacementMeans(t.a, x, parentA);
    PlacementMeans(t.b, x, parentB);
    HeldIndexed(t.base, x);
    HeldIndexed(t.a, x);
    HeldIndexed(t.b, x);
    MoveCellsAre(ResolveAuthor(authorA, authorB), t, x, cell);
    RecordSays(
      authorA, authorB, cell, x, MoveFacet, ConcurrentMove, Some(Str(parent)), Some(Str(parentA)), Some(Str(parentB)));
    RecordSays(
      authorA, authorB, cell, x, NodeFacet, ConcurrentMove, Some(Bytes(Sub(t.base, x))), Some(Bytes(Sub(t.a, x))),
      Some(Bytes(Sub(t.b, x))));
  }

  lemma {:induction false} MoveTells(authorA: Author, authorB: Author, t: Trio, x: Id, cell: Conflict)
    requires UniqueIds(t.base) && UniqueIds(t.a) && UniqueIds(t.b)
    ensures cell in MoveCells(ResolveAuthor(authorA, authorB), t.base, t.a, t.b, x) <==>
      cell.nodeId == x && MoveTold(authorA, authorB, t, cell)
  {
    HeldIndexed(t.base, x);
    HeldIndexed(t.a, x);
    HeldIndexed(t.b, x);
    if Holds(t.base, x) && Holds(t.a, x) && Holds(t.b, x) {
      PlacementHolds(t.base, "");
      PlacementHolds(t.a, "");
      PlacementHolds(t.b, "");
      MovesSay(authorA, authorB, t, x, cell);
      if parent, parentA, parentB :|
        MovedApart(authorA, authorB, t, cell, parent, parentA, parentB) && cell.nodeId == x
      {
        PlacementMeans(t.base, x, parent);
        PlacementMeans(t.a, x, parentA);
        PlacementMeans(t.b, x, parentB);
      }
    }
  }

  lemma {:induction false} MovesHave(res: Resolution, base: Node, a: Node, b: Node, ids: seq<Id>, cell: Conflict)
    ensures cell in MoveCellsFrom(res, base, a, b, ids) <==>
      cell.nodeId in ids && cell in MoveCells(res, base, a, b, cell.nodeId)
  {
    if ids != [] {
      MovesHave(res, base, a, b, ids[1..], cell);
      assert ids == [ids[0]] + ids[1..];
      assert cell in MoveCells(res, base, a, b, ids[0]) ==> cell.nodeId == ids[0];
    }
  }

  // -- All cells -------------------------------------------------------------

  // The cell belongs to the merge of the three.
  ghost predicate CellTold(authorA: Author, authorB: Author, base: Node, a: Node, b: Node, cell: Conflict) {
    || MoveTold(authorA, authorB, Trio(base, a, b), cell)
    || Told(authorA, authorB, Whole(a, b), Trio(base, a, b), cell)
  }

  // On unique trees, whoever wrote the branches, the merge records exactly these cells.
  lemma {:induction false} CellsAre(
    authorA: Author, authorB: Author, before: (Node, Node) -> bool, base: Node, a: Node, b: Node, cell: Conflict)
    requires base.id == a.id == b.id && UniqueIds(base) && UniqueIds(a) && UniqueIds(b)
    ensures cell in MergeAll(ResolveAuthor(authorA, authorB), before, base, a, b).1 <==>
      CellTold(authorA, authorB, base, a, b, cell)
  {
    var res, t := ResolveAuthor(authorA, authorB), Trio(base, a, b);
    PlacementHolds(a, "");
    PlacementHolds(b, "");
    RunTells(authorA, authorB, ContextOf(base, a, b, before), Whole(a, b), t, cell);
    SortedUnionIs(KidIds(base), []);
    MovesHave(res, base, a, b, SortedUnion(KidIds(base), []), cell);
    MoveTells(authorA, authorB, t, cell.nodeId, cell);
  }

  // -- Where the versions agree on owners ------------------------------------

  lemma {:induction false} HeldReached(t: Trio, owners: S.Owners, p: Id)
    requires Fit(t.base, owners) && Fit(t.a, owners) && Fit(t.b, owners) && t.base.id == t.a.id == t.b.id
    requires Holds(t.base, p) && Holds(t.a, p) && Holds(t.b, p)
    ensures Reached(t, Trio(Sub(t.base, p), Sub(t.a, p), Sub(t.b, p)))
    decreases Size(t.base)
  {
    if p == t.base.id {
      FitRoot(t.base, owners);
      FitRoot(t.a, owners);
      FitRoot(t.b, owners);
    } else {
      var bc := BranchOf(t.base, p, owners);
      var ac := BranchOf(t.a, p, owners);
      var bb := BranchOf(t.b, p, owners);
      OneBranch(t.base, t.a, bc, ac, p, owners);
      OneBranch(t.base, t.b, bc, bb, p, owners);
      assert KidTrio(t, bc.id) == Trio(bc, ac, bb);
      HeldReached(Trio(bc, ac, bb), owners, p);
      assert ReachedVia(t, bc.id, Trio(Sub(t.base, p), Sub(t.a, p), Sub(t.b, p)));
    }
  }

  lemma {:induction false} ReachedHeld(from: Trio, owners: S.Owners, to: Trio) returns (p: Id)
    requires Fit(from.base, owners) && Fit(from.a, owners) && Fit(from.b, owners)
    requires from.base.id == from.a.id == from.b.id && Reached(from, to)
    ensures Holds(from.base, p) && Holds(from.a, p) && Holds(from.b, p)
    ensures to == Trio(Sub(from.base, p), Sub(from.a, p), Sub(from.b, p))
    decreases Size(from.base)
  {
    if from == to {
      p := from.base.id;
      FitRoot(from.base, owners);
      FitRoot(from.a, owners);
      FitRoot(from.b, owners);
    } else {
      var cid := ReachedKid(from, to);
      var t := KidTrio(from, cid);
      FitKids(from.base, owners);
      FitKids(from.a, owners);
      FitKids(from.b, owners);
      p := ReachedHeld(t, owners, to);
      SubUnder(from.base, t.base, p, owners);
      SubUnder(from.a, t.a, p, owners);
      SubUnder(from.b, t.b, p, owners);
    }
  }
}
