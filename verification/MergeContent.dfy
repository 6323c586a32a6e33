// What a clean merge holds: which ids survive, and with which facets.
module MergeContent {
  import opened Wrappers
  import opened Tree
  import Ops
  import opened Ordinal
  import opened Merge
  import opened ApplySafety
  import opened MergeLaws
  import opened MergeUnique

  // -- The ids reached through child lists -----------------------------------

  predicate Holds(n: Node, x: Id) {
    x in KidIds(n)
  }

  lemma {:induction false} HoldsSeq(s: seq<Node>, x: Id)
    ensures x in KidIdsSeq(s) <==> exists i | 0 <= i < |s| :: Holds(s[i], x)
  {
    if s != [] {
      HoldsSeq(s[1..], x);
      if i :| 0 <= i < |s| && Holds(s[i], x) {
        assert i > 0 ==> s[1..][i - 1] == s[i];
      }
      if i :| 0 <= i < |s[1..]| && Holds(s[1..][i], x) {
        assert s[i + 1] == s[1..][i];
      }
    }
  }

  lemma {:induction false} HoldsSplit(n: Node, x: Id)
    ensures Holds(n, x) <==> x == n.id || exists c | c in KidsOf(n) :: Holds(c, x)
  {
    HoldsSeq(KidsOf(n), x);
    if c :| c in KidsOf(n) && Holds(c, x) {
      var i :| 0 <= i < |KidsOf(n)| && KidsOf(n)[i] == c;
      assert Holds(KidsOf(n)[i], x);
    }
  }

  lemma {:induction false} HeldOccurs(n: Node, x: Id)
    requires Holds(n, x)
    ensures Occ(x, n) >= 1
    decreases Size(n)
  {
    HoldsSplit(n, x);
    if x != n.id {
      var c :| c in KidsOf(n) && Holds(c, x);
      KidSmaller(n, c);
      HeldOccurs(c, x);
      KidOccurs(n, c, x);
    }
  }

  lemma {:induction false} KidOccurs(n: Node, c: Node, x: Id)
    requires c in KidsOf(n)
    ensures Occ(x, n) >= (if x == n.id then 1 else 0) + Occ(x, c)
  {
    var i := KidAt(n, c);
    OccMember(x, Slots(n), i);
  }

  // -- Kids and their branches -----------------------------------------------

  // Two sub-nodes that hang under the same id, hold a common id and hold that parent
  // id nowhere, are the same child.
  lemma {:induction false} SameBranch(c: Node, d: Node, p: Path, q: Path, parent: Id, owners: Owners)
    requires Placed(c, owners) && Placed(d, owners) && Occ(parent, c) == 0 && Occ(parent, d) == 0
    requires c.id in owners && owners[c.id] == Kid(parent) && d.id in owners && owners[d.id] == Kid(parent)
    requires ValidPath(c, p) && ValidPath(d, q) && NodeAt(c, p).id == NodeAt(d, q).id
    ensures c.id == d.id
    decreases |p|
  {
    if p != [] && q != [] {
      BelowOwner(c, p, owners);
      BelowOwner(d, q, owners);
      SameBranch(c, d, Above(p), Above(q), parent, owners);
    } else if p != [] {
      BelowOwner(c, p, owners);
      PathOcc(c, Above(p));
    } else if q != [] {
      BelowOwner(d, q, owners);
      PathOcc(d, Above(q));
    }
  }

  lemma {:induction false} BelowOwner(n: Node, p: Path, owners: Owners)
    requires Placed(n, owners) && ValidPath(n, p) && p != []
    ensures ValidPath(n, Above(p))
    ensures var x := NodeAt(n, p).id;
      x in owners && owners[x] != Root && owners[x].parent == NodeAt(n, Above(p)).id
  {
    AboveValid(n, p);
    TidyAt(n, Above(p), {}, owners);
    assert TidyNode(NodeAt(n, Above(p)), {}, owners);
  }

  // A matched pair of nodes, each within its own tidy unique tree.
  ghost predicate Fit(n: Node, owners: Owners) {
    Placed(n, owners) && UniqueIds(n)
  }

  lemma {:induction false} FitKids(n: Node, owners: Owners)
    requires Fit(n, owners)
    ensures forall c | c in KidsOf(n) ::
      Fit(c, owners) && c.id in owners && owners[c.id] == Kid(n.id) && Occ(n.id, c) == 0
    ensures NoRepeat(Ids(KidsOf(n))) && DistinctIds(KidsOf(n))
  {
    PlacedKids(n, owners);
    UniqueKids(n);
    forall c | c in KidsOf(n)
      ensures c.id in owners && owners[c.id] == Kid(n.id) && Occ(n.id, c) == 0
    {
      KidOccurs(n, c, n.id);
      assert Occ(n.id, n) <= 1;
      var i :| 0 <= i < |KidsOf(n)| && KidsOf(n)[i] == c;
    }
  }

  lemma {:induction false} OneBranch(m: Node, n: Node, c: Node, d: Node, x: Id, owners: Owners)
    requires Fit(m, owners) && Fit(n, owners) && m.id == n.id
    requires c in KidsOf(m) && d in KidsOf(n) && Holds(c, x) && Holds(d, x)
    ensures c.id == d.id
  {
    FitKids(m, owners);
    FitKids(n, owners);
    HeldOccurs(c, x);
    HeldOccurs(d, x);
    var p := PathTo(x, c);
    var q := PathTo(x, d);
    SameBranch(c, d, p, q, m.id, owners);
  }

  lemma {:induction false} RootOnce(n: Node, c: Node)
    requires UniqueIds(n) && c in KidsOf(n)
    ensures !Holds(c, n.id)
  {
    assert Occ(n.id, n) <= 1;
    if Holds(c, n.id) {
      HeldOccurs(c, n.id);
      KidOccurs(n, c, n.id);
    }
  }

  // -- The child list --------------------------------------------------------

  lemma {:induction false} OnlyAll(base: seq<Id>, head: seq<Id>)
    requires Only(base, ToSet(head)) == base
    ensures forall x | x in base :: x in head
  {
    OnlyIs(base, ToSet(head));
  }

  lemma {:induction false} OnlyIs(ids: seq<Id>, keep: set<Id>)
    ensures forall x :: x in Only(ids, keep) <==> x in ids && x in keep
  {
    if ids != [] {
      OnlyIs(ids[1..], keep);
      assert ids == [ids[0]] + ids[1..];
    }
  }

  predicate Survives(inBase: bool, inA: bool, inB: bool) {
    if inBase then inA && inB else inA || inB
  }

  lemma {:induction false} OrderLaw(res: Resolution, base: seq<Id>, a: seq<Id>, b: seq<Id>)
    requires !OrderClash(base, a, b)
    ensures forall x :: x in MergedOrder(res, base, a, b) <==> Survives(x in base, x in a, x in b)
  {
    var aNew, bNew := Except(a, ToSet(base)), Except(b, ToSet(base));
    SortedUnionIs(aNew, bNew);
    ExceptIs(a, ToSet(base));
    ExceptIs(b, ToSet(base));
    if a != base && b != base && a != b {
      OnlyAll(base, a);
      OnlyAll(base, b);
    }
  }

  // -- A matched triple inside three whole trees -----------------------------

  ghost predicate Inside(whole: Node, n: Node) {
    exists r :: ValidPath(whole, r) && NodeAt(whole, r) == n
  }

  lemma {:induction false} InsideKid(whole: Node, n: Node, c: Node)
    requires Inside(whole, n) && c in KidsOf(n)
    ensures Inside(whole, c)
  {
    var r :| ValidPath(whole, r) && NodeAt(whole, r) == n;
    var i := KidAt(n, c);
    PathConcat(whole, r, [i]);
    assert NodeAt(whole, r + [i]) == c;
  }

  lemma {:induction false} ParentOf(n: Node, x: Id) returns (s: Path)
    requires Holds(n, x) && x != n.id
    ensures ValidPath(n, s) && x in Ids(KidsOf(NodeAt(n, s)))
    decreases Size(n)
  {
    HoldsSplit(n, x);
    var c :| c in KidsOf(n) && Holds(c, x);
    var i := KidAt(n, c);
    if x == c.id {
      s := [];
      assert Ids(KidsOf(n))[i] == x;
    } else {
      KidSmaller(n, c);
      var t := ParentOf(c, x);
      s := [i] + t;
      BelowSlot(n, i, t);
    }
  }

  // An id a whole tree holds, owned by a node inside it, is that node's child.
  lemma {:induction false} OwnedIsKid(whole: Node, n: Node, x: Id, owners: Owners)
    requires Fit(whole, owners) && Inside(whole, n) && Holds(whole, x) && x != whole.id
    requires x in owners && owners[x] == Kid(n.id)
    ensures x in Ids(KidsOf(n))
  {
    var r :| ValidPath(whole, r) && NodeAt(whole, r) == n;
    var s := ParentOf(whole, x);
    var m := NodeAt(whole, s);
    TidyAt(whole, s, {}, owners);
    PlacedKids(m, owners);
    var i :| 0 <= i < |KidsOf(m)| && Ids(KidsOf(m))[i] == x;
    assert KidsOf(m)[i].id == x;
    UniquePath(whole, r, s);
  }

  lemma {:induction false} PlacementHolds(n: Node, parent: Id)
    ensures forall x :: x in PlacementOf(n, parent) <==> Holds(n, x)
  {
    PlacementIndexed(n, parent);
    KidIdsIndexed(n);
  }

  // The base and two branches, matched at one node of each.
  ghost predicate Scene(c: Context, wholeA: Node, wholeB: Node, base: Node, a: Node, b: Node, owners: Owners) {
    && base.id == a.id == b.id
    && Fit(base, owners) && Fit(a, owners) && Fit(b, owners)
    && TidyTree(wholeA, {}, owners) && UniqueIds(wholeA) && Inside(wholeA, a) && c.a == PlacementOf(wholeA, "")
    && TidyTree(wholeB, {}, owners) && UniqueIds(wholeB) && Inside(wholeB, b) && c.b == PlacementOf(wholeB, "")
  }

  lemma {:induction false} SceneKid(
    c: Context, wholeA: Node, wholeB: Node, base: Node, a: Node, b: Node, owners: Owners,
    bc: Node, ac: Node, bb: Node)
    requires Scene(c, wholeA, wholeB, base, a, b, owners)
    requires bc in KidsOf(base) && ac in KidsOf(a) && bb in KidsOf(b) && bc.id == ac.id == bb.id
    ensures Scene(c, wholeA, wholeB, bc, ac, bb, owners)
  {
    FitKids(base, owners);
    FitKids(a, owners);
    FitKids(b, owners);
    InsideKid(wholeA, a, ac);
    InsideKid(wholeB, b, bb);
  }

  // A child a branch lost while the other branch changed it is refused.
  lemma {:induction false} LostUnchanged(
    res: Resolution, c: Context, wholeA: Node, wholeB: Node, base: Node, a: Node, b: Node, owners: Owners, x: Id)
    requires Scene(c, wholeA, wholeB, base, a, b, owners) && x in Ids(KidsOf(base))
    requires DeleteCell(res, c, x, ById(KidsOf(base), x), ById(KidsOf(a), x), ById(KidsOf(b), x)) == []
    ensures x in Ids(KidsOf(a)) && x !in Ids(KidsOf(b)) ==> ById(KidsOf(a), x) == ById(KidsOf(base), x)
    ensures x in Ids(KidsOf(b)) && x !in Ids(KidsOf(a)) ==> ById(KidsOf(b), x) == ById(KidsOf(base), x)
  {
    FitKids(base, owners);
    var i :| 0 <= i < |KidsOf(base)| && Ids(KidsOf(base))[i] == x;
    assert KidsOf(base)[i] in KidsOf(base);
    PlacementHolds(wholeA, "");
    PlacementHolds(wholeB, "");
    if x in c.a {
      OwnedIsKid(wholeA, a, x, owners);
    }
    if x in c.b {
      OwnedIsKid(wholeB, b, x, owners);
    }
  }

  lemma {:induction false} DeleteCellsAt(
    res: Resolution, c: Context, ids: seq<Id>, base: seq<Node>, a: seq<Node>, b: seq<Node>, x: Id)
    requires forall y | y in ids :: y in Ids(base)
    requires DeleteCells(res, c, ids, base, a, b) == [] && x in ids
    ensures DeleteCell(res, c, x, ById(base, x), ById(a, x), ById(b, x)) == []
  {
    if x != ids[0] {
      DeleteCellsAt(res, c, ids[1..], base, a, b, x);
    }
  }

  // -- Facets ----------------------------------------------------------------

  // A style member read at its default when absent.
  function Token(n: Node, m: Member): string {
    if m in Ops.StyleMembers(n) then Ops.StyleMembers(n)[m] else Ops.IdentityOf(m)
  }

  // The changed side's value, or the base's; where both sides changed it differently,
  // the value of the side holding the pin. A strict rule admits no such clash.
  ghost predicate Settles<T>(rule: Rule, base: T, a: T, b: T, m: T) {
    var clash := a != base && b != base && a != b;
    && (rule.strict ==> !clash)
    && m == if clash then Chosen(Pinned(rule.res), base, a, b) else if a != base then a else b
  }

  datatype Rule = Rule(res: Resolution, strict: bool)

  // A facet as the merge compares it: with the members outside its control riding along.
  type Seen<T> = (T, Fields)

  // The same for a facet whose cell carries those members. An edit to them makes a side look
  // changed, so it can contest a facet only the other side changed; with nothing contested
  // the facet settles as if they were not there.
  ghost predicate SettlesSeen<T>(rule: Rule, base: Seen<T>, a: Seen<T>, b: Seen<T>, m: T) {
    if rule.strict then Settles(rule, base.0, a.0, b.0, m)
    else m == Chosen(PickOf(rule.res, base, a, b), base.0, a.0, b.0)
  }

  function KindSeen(n: Node): Seen<Kind> { (Childless(n.kind), n.extras) }
  function StateSeen(n: Node): Seen<State> { (n.state, n.extras) }
  function AccessSeen(n: Node): Seen<Option<Fields>> { (n.access, n.extras) }
  function TooltipSeen(n: Node): Seen<Option<string>> { (n.tooltip, n.extras) }

  ghost predicate Facetwise(rule: Rule, base: Node, a: Node, b: Node, m: Node) {
    && m.id == base.id && m.extras == base.extras
    && SettlesSeen(rule, KindSeen(base), KindSeen(a), KindSeen(b), Childless(m.kind))
    && (forall k: Member :: Settles(rule, Token(base, k), Token(a, k), Token(b, k), Token(m, k)))
    && SettlesSeen(rule, StateSeen(base), StateSeen(a), StateSeen(b), m.state)
    && SettlesSeen(rule, AccessSeen(base), AccessSeen(a), AccessSeen(b), m.access)
    && SettlesSeen(rule, TooltipSeen(base), TooltipSeen(a), TooltipSeen(b), m.tooltip)
  }

  // What a rule assumes of the cells a run recorded: none, or facet cells only.
  ghost predicate Admits(rule: Rule, cells: seq<Conflict>) {
    if rule.strict then cells == [] else forall c | c in cells :: OwnFacet(c.facet)
  }

  ghost predicate OwnFacet(f: Facet) {
    f.KindFacet? || f.StyleFacet? || f.StateFacet? || f.AccessFacet? || f.TooltipFacet?
  }

  lemma {:induction false} StyleCellsAt(res: Resolution, base: Node, a: Node, b: Node, members: seq<Member>, m: Member)
    requires StyleCells(res, base, a, b, members) == [] && m in members
    ensures StyleCell(res, base, a, b, m) == []
  {
    if m != members[0] {
      StyleCellsAt(res, base, a, b, members[1..], m);
    }
  }

  lemma {:induction false} StyleSettles(rule: Rule, base: Node, a: Node, b: Node, m: Node, k: Member)
    requires rule.strict ==> StyleCells(rule.res, base, a, b, StyleOrder) == []
    requires m.style == MergedStyle(rule.res, base, a, b)
    requires StoredStyle(base) && StoredStyle(a) && StoredStyle(b)
    ensures Settles(rule, Token(base, k), Token(a, k), Token(b, k), Token(m, k))
  {
    if rule.strict {
      Ordered(k);
      StyleCellsAt(rule.res, base, a, b, StyleOrder, k);
    }
    MergedToken(rule.res, base, a, b, m, k);
    FieldToken(base, k);
    FieldToken(a, k);
    FieldToken(b, k);
    PickSettles(rule, base, a, b, k);
  }

  lemma {:induction false} MergedToken(res: Resolution, base: Node, a: Node, b: Node, m: Node, k: Member)
    requires m.style == MergedStyle(res, base, a, b)
    ensures var pick := StylePick(res, base, a, b, k);
      Token(m, k) == if Stored(k, pick) then pick.value else Ops.IdentityOf(k)
  {
    var members := MergedMembers(res, base, a, b);
    assert Ops.StyleMembers(m) == members;
    assert k in members <==> Stored(k, StylePick(res, base, a, b, k));
  }

  // The picked field, as a token, is the settled one.
  lemma {:induction false} PickSettles(rule: Rule, base: Node, a: Node, b: Node, k: Member)
    requires rule.strict ==> StyleCell(rule.res, base, a, b, k) == []
    requires StoredStyle(base) && StoredStyle(a) && StoredStyle(b)
    ensures var pick := StylePick(rule.res, base, a, b, k);
      Settles(rule, Token(base, k), Token(a, k), Token(b, k), if Stored(k, pick) then pick.value else Ops.IdentityOf(k))
  {
    FieldToken(base, k);
    FieldToken(a, k);
    FieldToken(b, k);
    var pick := StylePick(rule.res, base, a, b, k);
    assert pick == StyleField(base, k) || pick == StyleField(a, k) || pick == StyleField(b, k);
  }

  lemma {:induction false} FieldToken(n: Node, k: Member)
    requires StoredStyle(n)
    ensures StyleField(n, k) == None || StyleField(n, k) == Some(Token(n, k))
    ensures StyleField(n, k) == None ==> (k == Role || k == Voice) && Token(n, k) == Ops.IdentityOf(k)
    ensures k == Role || k == Voice ==> (StyleField(n, k) == None <==> Token(n, k) == Ops.IdentityOf(k))
    ensures Stored(k, StyleField(n, k)) <==> Token(n, k) != Ops.IdentityOf(k)
  {
  }

  lemma {:induction false} NodeFacetwise(rule: Rule, base: Node, a: Node, b: Node, kids: seq<Node>)
    requires rule.strict ==> OwnCells(rule.res, base, a, b) == []
    requires StoredStyle(base) && StoredStyle(a) && StoredStyle(b) && base.id == a.id == b.id
    ensures Facetwise(rule, base, a, b, MergedNode(rule.res, base, a, b, kids))
    ensures var m := MergedNode(rule.res, base, a, b, kids); KidsOf(m) == if IsLayout(m) then kids else []
  {
    var res := rule.res;
    var m := MergedNode(res, base, a, b, kids);
    if rule.strict {
      OwnCellsParts(res, base, a, b);
    }
    forall k: Member ensures Settles(rule, Token(base, k), Token(a, k), Token(b, k), Token(m, k)) {
      StyleSettles(rule, base, a, b, m, k);
    }
    KindSettles(rule, base, a, b);
    StateSettles(rule, base, a, b);
    AccessSettles(rule, base, a, b);
    TooltipSettles(rule, base, a, b);
    assert Childless(m.kind) == MergedKind(res, base, a, b);
  }

  lemma {:induction false} OwnCellsParts(res: Resolution, base: Node, a: Node, b: Node)
    requires OwnCells(res, base, a, b) == []
    ensures var shell := Childless(base.kind);
      && StyleCells(res, base, a, b, StyleOrder) == []
      && !Clash(KindProbe(base), KindProbe(a), KindProbe(b))
      && !Clash(StateProbe(shell, base), StateProbe(shell, a), StateProbe(shell, b))
      && !Clash(AccessProbe(shell, base), AccessProbe(shell, a), AccessProbe(shell, b))
      && !Clash(TooltipProbe(shell, base), TooltipProbe(shell, a), TooltipProbe(shell, b))
  {
    var shell := Childless(base.kind);
    assert ProbeCell(res, base.id, KindFacet, KindProbe(base), KindProbe(a), KindProbe(b)) == [];
    assert StyleCells(res, base, a, b, StyleOrder) == [];
    assert
      ProbeCell(res, base.id, StateFacet, StateProbe(shell, base), StateProbe(shell, a), StateProbe(shell, b)) == [];
    assert ProbeCell(
      res, base.id, AccessFacet, AccessProbe(shell, base), AccessProbe(shell, a), AccessProbe(shell, b)) == [];
    assert ProbeCell(
      res, base.id, TooltipFacet, TooltipProbe(shell, base), TooltipProbe(shell, a), TooltipProbe(shell, b)) == [];
  }

  lemma {:induction false} KindSettles(rule: Rule, base: Node, a: Node, b: Node)
    requires rule.strict ==> !Clash(KindProbe(base), KindProbe(a), KindProbe(b))
    requires base.id == a.id == b.id
    ensures var k := MergedKind(rule.res, base, a, b);
      && SettlesSeen(rule, KindSeen(base), KindSeen(a), KindSeen(b), k)
      && Childless(k) == k
  {
  }

  lemma {:induction false} StateSettles(rule: Rule, base: Node, a: Node, b: Node)
    requires var shell := Childless(base.kind);
      rule.strict ==> !Clash(StateProbe(shell, base), StateProbe(shell, a), StateProbe(shell, b))
    requires base.id == a.id == b.id
    ensures SettlesSeen(rule, StateSeen(base), StateSeen(a), StateSeen(b), MergedState(rule.res, base, a, b))
  {
  }

  lemma {:induction false} AccessSettles(rule: Rule, base: Node, a: Node, b: Node)
    requires var shell := Childless(base.kind);
      rule.strict ==> !Clash(AccessProbe(shell, base), AccessProbe(shell, a), AccessProbe(shell, b))
    requires base.id == a.id == b.id
    ensures SettlesSeen(rule, AccessSeen(base), AccessSeen(a), AccessSeen(b), MergedAccess(rule.res, base, a, b))
  {
  }

  lemma {:induction false} TooltipSettles(rule: Rule, base: Node, a: Node, b: Node)
    requires var shell := Childless(base.kind);
      rule.strict ==> !Clash(TooltipProbe(shell, base), TooltipProbe(shell, a), TooltipProbe(shell, b))
    requires base.id == a.id == b.id
    ensures SettlesSeen(
      rule, TooltipSeen(base), TooltipSeen(a), TooltipSeen(b), MergedTooltip(rule.res, base, a, b))
  {
  }

  // -- Looking a node up by id -----------------------------------------------

  lemma {:induction false} IndexSeq(s: seq<Node>, i: nat, x: Id)
    requires i < |s| && Holds(s[i], x)
    requires forall j | 0 <= j < |s| && j != i :: !Holds(s[j], x)
    ensures x in NodeIndex(s[i]) && x in NodeIndexSeq(s) && NodeIndexSeq(s)[x] == NodeIndex(s[i])[x]
  {
    var rest := s[1..];
    assert forall j | 0 <= j < |rest| :: rest[j] == s[j + 1];
    KidIdsIndexed(s[i]);
    if i == 0 {
      NotIndexed(rest, x);
    } else {
      assert rest[i - 1] == s[i];
      IndexSeq(rest, i - 1, x);
    }
  }

  lemma {:induction false} NotIndexed(s: seq<Node>, x: Id)
    requires forall j | 0 <= j < |s| :: !Holds(s[j], x)
    ensures x !in NodeIndexSeq(s)
  {
    KidIdsIndexedSeq(s);
    HoldsSeq(s, x);
  }

  // The node a tree holds under an id.
  function Sub(n: Node, x: Id): Node
    requires Holds(n, x)
  {
    KidIdsIndexed(n);
    NodeIndex(n)[x]
  }

  lemma {:induction false} SubKid(n: Node, i: nat, x: Id)
    requires i < |KidsOf(n)| && Holds(KidsOf(n)[i], x)
    requires forall j | 0 <= j < |KidsOf(n)| && j != i :: !Holds(KidsOf(n)[j], x)
    ensures Holds(n, x) && Sub(n, x) == Sub(KidsOf(n)[i], x)
  {
    HoldsSplit(n, x);
    assert KidsOf(n)[i] in KidsOf(n);
    IndexSeq(KidsOf(n), i, x);
    KidIdsIndexed(n);
    KidIdsIndexed(KidsOf(n)[i]);
  }

  lemma {:induction false} SubRoot(n: Node)
    requires forall c | c in KidsOf(n) :: !Holds(c, n.id)
    ensures Holds(n, n.id) && Sub(n, n.id) == n
  {
    HoldsSplit(n, n.id);
    HoldsSeq(KidsOf(n), n.id);
    KidIdsIndexedSeq(KidsOf(n));
    forall i | 0 <= i < |KidsOf(n)| ensures !Holds(KidsOf(n)[i], n.id) {
      assert KidsOf(n)[i] in KidsOf(n);
    }
    assert n.id !in NodeIndexSeq(KidsOf(n));
  }

  // A child list asked through one child.
  ghost predicate Under(n: Node, cid: Id, x: Id) {
    var c := ById(KidsOf(n), cid);
    c.Some? && Holds(c.value, x)
  }

  lemma {:induction false} UnderIs(n: Node, x: Id, owners: Owners)
    requires Fit(n, owners) && x != n.id
    ensures Holds(n, x) <==> exists cid :: Under(n, cid, x)
    ensures forall cid | Under(n, cid, x) :: Sub(n, x) == Sub(ById(KidsOf(n), cid).value, x)
  {
    FitKids(n, owners);
    HoldsSplit(n, x);
    if Holds(n, x) {
      var c :| c in KidsOf(n) && Holds(c, x);
      var i := KidAt(n, c);
      ByIdDistinct(KidsOf(n), i);
      assert Under(n, c.id, x);
    }
    forall cid | Under(n, cid, x) ensures Holds(n, x) && Sub(n, x) == Sub(ById(KidsOf(n), cid).value, x) {
      var c := ById(KidsOf(n), cid).value;
      var i := KidAt(n, c);
      forall j | 0 <= j < |KidsOf(n)| && j != i ensures !Holds(KidsOf(n)[j], x) {
        if Holds(KidsOf(n)[j], x) {
          OneBranch(n, n, c, KidsOf(n)[j], x, owners);
          assert false;
        }
      }
      SubKid(n, i, x);
    }
  }

  lemma {:induction false} UnderOnce(m: Node, n: Node, cid: Id, did: Id, x: Id, owners: Owners)
    requires Fit(m, owners) && Fit(n, owners) && m.id == n.id
    requires Under(m, cid, x) && Under(n, did, x)
    ensures cid == did
  {
    OneBranch(m, n, ById(KidsOf(m), cid).value, ById(KidsOf(n), did).value, x, owners);
  }

  // -- The law ---------------------------------------------------------------

  // What a merged node must hold for one id, given what the three versions hold.
  ghost predicate Law(rule: Rule, base: Node, a: Node, b: Node, m: Node, x: Id) {
    && (Holds(m, x) <==> Survives(Holds(base, x), Holds(a, x), Holds(b, x)))
    && (Holds(m, x) ==>
          if Holds(base, x) then Facetwise(rule, Sub(base, x), Sub(a, x), Sub(b, x), Sub(m, x))
          else if Holds(a, x) then Sub(m, x) == Sub(a, x) && (Holds(b, x) ==> Sub(b, x) == Sub(a, x))
          else Sub(m, x) == Sub(b, x))
  }

  // The same, asked through one child id of the three versions.
  ghost predicate KidLaw(rule: Rule, base: Node, a: Node, b: Node, k: Node, cid: Id, x: Id) {
    var bc, ac, bb := ById(KidsOf(base), cid), ById(KidsOf(a), cid), ById(KidsOf(b), cid);
    && (Holds(k, x) <==> Survives(Under(base, cid, x), Under(a, cid, x), Under(b, cid, x)))
    && (Holds(k, x) ==>
          if Under(base, cid, x) then Facetwise(rule, Sub(bc.value, x), Sub(ac.value, x), Sub(bb.value, x), Sub(k, x))
          else if Under(a, cid, x)
          then Sub(k, x) == Sub(ac.value, x) && (Under(b, cid, x) ==> Sub(bb.value, x) == Sub(ac.value, x))
          else Sub(k, x) == Sub(bb.value, x))
  }

  // -- The children a merge drops --------------------------------------------

  // An empty child list one branch fills, on a node that ends as a kind without children.
  // When nothing is contested that is the other branch turning a container into one.
  ghost predicate Drops(rule: Rule, base: Node, a: Node, b: Node) {
    if rule.strict then
      && IsLayout(base) && KidsOf(base) == []
      && ((KidsOf(a) != [] && !IsLayout(b)) || (KidsOf(b) != [] && !IsLayout(a)))
    else
      && KidsOf(base) == [] && (KidsOf(a) != [] || KidsOf(b) != [])
      && !IsLayoutTag(SettledKind(rule.res, base, a, b).tag)
  }

  function SettledKind(res: Resolution, base: Node, a: Node, b: Node): Kind {
    Chosen(PickOf(res, KindSeen(base), KindSeen(a), KindSeen(b)), base.kind, a.kind, b.kind)
  }

  // The id lies below a node all three versions hold and the merge drops the children of.
  ghost predicate Lost(rule: Rule, base: Node, a: Node, b: Node, x: Id) {
    exists p :: LostAt(rule, base, a, b, p, x)
  }

  ghost predicate LostAt(rule: Rule, base: Node, a: Node, b: Node, p: Id, x: Id) {
    && Holds(base, p) && Holds(a, p) && Holds(b, p)
    && Drops(rule, Sub(base, p), Sub(a, p), Sub(b, p))
    && x != p && (Holds(Sub(a, p), x) || Holds(Sub(b, p), x))
  }

  lemma {:induction false} LostRoot(rule: Rule, base: Node, a: Node, b: Node, owners: Owners, x: Id)
    requires Fit(base, owners) && Fit(a, owners) && Fit(b, owners) && base.id == a.id == b.id
    requires Drops(rule, base, a, b) && x != base.id && (Holds(a, x) || Holds(b, x))
    ensures Lost(rule, base, a, b, x)
  {
    FitRoot(base, owners);
    FitRoot(a, owners);
    FitRoot(b, owners);
    assert LostAt(rule, base, a, b, base.id, x);
  }

  lemma {:induction false} SubUnder(n: Node, c: Node, p: Id, owners: Owners)
    requires Fit(n, owners) && ById(KidsOf(n), c.id) == Some(c) && Holds(c, p)
    ensures Holds(n, p) && Sub(n, p) == Sub(c, p)
  {
    if p == n.id {
      RootOnce(n, c);
    }
    UnderIs(n, p, owners);
    assert Under(n, c.id, p);
  }

  // What is lost inside a matched child is lost in the whole.
  lemma {:induction false} LostKid(
    rule: Rule, base: Node, a: Node, b: Node, bc: Node, ac: Node, bb: Node, owners: Owners, x: Id)
    requires Fit(base, owners) && Fit(a, owners) && Fit(b, owners) && bc.id == ac.id == bb.id
    requires ById(KidsOf(base), bc.id) == Some(bc)
    requires ById(KidsOf(a), ac.id) == Some(ac) && ById(KidsOf(b), bb.id) == Some(bb)
    requires Lost(rule, bc, ac, bb, x)
    ensures Lost(rule, base, a, b, x)
  {
    var p :| LostAt(rule, bc, ac, bb, p, x);
    SubUnder(base, bc, p, owners);
    SubUnder(a, ac, p, owners);
    SubUnder(b, bb, p, owners);
    assert LostAt(rule, base, a, b, p, x);
  }

  // A merged child list that its node cannot hold is a drop.
  lemma {:induction false} OrderDrops(rule: Rule, base: Node, a: Node, b: Node, kind: Kind)
    requires SettlesSeen(rule, KindSeen(base), KindSeen(a), KindSeen(b), kind) && !IsLayoutTag(kind.tag)
    requires !OrderClash(Ids(KidsOf(base)), Ids(KidsOf(a)), Ids(KidsOf(b)))
    requires MergedOrder(rule.res, Ids(KidsOf(base)), Ids(KidsOf(a)), Ids(KidsOf(b))) != []
    ensures Drops(rule, base, a, b)
  {
    OrderSource(rule.res, base, a, b);
  }

  lemma {:induction false} NothingAdded(base: seq<Id>)
    requires base != []
    ensures !PureAddition(base, [])
  {
    OnlyIs(base, ToSet([]));
    assert base[0] !in Only(base, ToSet([]));
  }

  // Where a list is kept although one version has none: base has none, and another has some.
  lemma {:induction false} OrderSource(res: Resolution, base: Node, a: Node, b: Node)
    requires !OrderClash(Ids(KidsOf(base)), Ids(KidsOf(a)), Ids(KidsOf(b)))
    requires MergedOrder(res, Ids(KidsOf(base)), Ids(KidsOf(a)), Ids(KidsOf(b))) != []
    ensures KidsOf(base) == [] || (KidsOf(a) != [] && KidsOf(b) != [])
    ensures KidsOf(a) != [] || KidsOf(b) != []
  {
    var baseIds, aIds, bIds := Ids(KidsOf(base)), Ids(KidsOf(a)), Ids(KidsOf(b));
    OrderLaw(res, baseIds, aIds, bIds);
    var x := MergedOrder(res, baseIds, aIds, bIds)[0];
    assert x in MergedOrder(res, baseIds, aIds, bIds);
    if baseIds != [] && (aIds == [] || bIds == []) {
      NothingAdded(baseIds);
    }
  }

  // A child dropped from the order leaves nothing that should survive.
  lemma {:induction false} DroppedKid(
    res: Resolution, c: Context, wholeA: Node, wholeB: Node, base: Node, a: Node, b: Node, owners: Owners,
    cid: Id, x: Id)
    requires Scene(c, wholeA, wholeB, base, a, b, owners)
    requires DeleteCells(res, c, Ids(KidsOf(base)), KidsOf(base), KidsOf(a), KidsOf(b)) == []
    requires !Survives(cid in Ids(KidsOf(base)), cid in Ids(KidsOf(a)), cid in Ids(KidsOf(b)))
    ensures !Survives(Under(base, cid, x), Under(a, cid, x), Under(b, cid, x))
  {
    if cid in Ids(KidsOf(base)) {
      DeleteCellsAt(res, c, Ids(KidsOf(base)), KidsOf(base), KidsOf(a), KidsOf(b), cid);
      LostUnchanged(res, c, wholeA, wholeB, base, a, b, owners, cid);
    }
  }

  ghost predicate Stored3(base: Node, a: Node, b: Node) {
    StoredStyles(base) && StoredStyles(a) && StoredStyles(b)
  }

  lemma {:induction false} MergeLaw(
    rule: Rule, c: Context, wholeA: Node, wholeB: Node, base: Node, a: Node, b: Node, owners: Owners, x: Id)
    requires Scene(c, wholeA, wholeB, base, a, b, owners) && Stored3(base, a, b)
    requires Admits(rule, Merge3(rule.res, c, base, Some(a), Some(b)).1)
    requires !Lost(rule, base, a, b, x)
    ensures Law(rule, base, a, b, Merge3(rule.res, c, base, Some(a), Some(b)).0, x)
    decreases Size(base), 1, 0
  {
    var res := rule.res;
    var order := MergedOrder(res, Ids(KidsOf(base)), Ids(KidsOf(a)), Ids(KidsOf(b)));
    var merged := MergeKids(res, c, order, base, KidsOf(a), KidsOf(b));
    CellParts(
      rule, OwnCells(res, base, a, b), DeleteCells(res, c, Ids(KidsOf(base)), KidsOf(base), KidsOf(a), KidsOf(b)),
      OrderCell(res, base.id, Ids(KidsOf(base)), Ids(KidsOf(a)), Ids(KidsOf(b))), merged.1);
    NoDeleteCells(res, c, Ids(KidsOf(base)), KidsOf(base), KidsOf(a), KidsOf(b));
    if OrderClash(Ids(KidsOf(base)), Ids(KidsOf(a)), Ids(KidsOf(b))) {
      OrderClashShows(res, base.id, Ids(KidsOf(base)), Ids(KidsOf(a)), Ids(KidsOf(b)));
    }
    FitKids(base, owners);
    FitKids(a, owners);
    FitKids(b, owners);
    OrderLaw(res, Ids(KidsOf(base)), Ids(KidsOf(a)), Ids(KidsOf(b)));
    OrderNoRepeat(res, Ids(KidsOf(base)), Ids(KidsOf(a)), Ids(KidsOf(b)));
    KidsLaw(rule, c, wholeA, wholeB, base, a, b, owners, order, x);
    RootStored(base, a, b);
    NodeFacetwise(rule, base, a, b, merged.0);
    var m := MergedNode(res, base, a, b, merged.0);
    if order != [] && !IsLayout(m) {
      OrderDrops(rule, base, a, b, Childless(m.kind));
      DroppedLaw(rule, base, a, b, m, owners, x);
    } else {
      forall cid | cid !in order ensures !Survives(Under(base, cid, x), Under(a, cid, x), Under(b, cid, x)) {
        DroppedKid(res, c, wholeA, wholeB, base, a, b, owners, cid, x);
      }
      JoinLaw(rule, base, a, b, m, order, owners, x);
    }
  }

  lemma {:induction false} RootStored(base: Node, a: Node, b: Node)
    requires Stored3(base, a, b)
    ensures StoredStyle(base) && StoredStyle(a) && StoredStyle(b)
  {
    assert ValidPath(base, []) && ValidPath(a, []) && ValidPath(b, []);
    assert NodeAt(base, []) == base && NodeAt(a, []) == a && NodeAt(b, []) == b;
  }

  lemma {:induction false} CellParts(
    rule: Rule, own: seq<Conflict>, gone: seq<Conflict>, list: seq<Conflict>, kids: seq<Conflict>)
    requires Admits(rule, own + gone + list + kids)
    ensures rule.strict ==> own == []
    ensures forall c | c in gone :: OwnFacet(c.facet)
    ensures forall c | c in list :: OwnFacet(c.facet)
    ensures Admits(rule, kids)
  {
    var all := own + gone + list + kids;
    assert forall c | c in gone :: c in all;
    assert forall c | c in list :: c in all;
    assert forall c | c in kids :: c in all;
  }

  lemma {:induction false} OrderClashShows(res: Resolution, x: Id, base: seq<Id>, a: seq<Id>, b: seq<Id>)
    requires OrderClash(base, a, b)
    ensures exists cell :: cell in OrderCell(res, x, base, a, b) && !OwnFacet(cell.facet)
  {
    assert OrderCell(res, x, base, a, b)[0] in OrderCell(res, x, base, a, b);
  }

  lemma {:induction false} NoDeleteCells(
    res: Resolution, c: Context, ids: seq<Id>, base: seq<Node>, a: seq<Node>, b: seq<Node>)
    requires forall x | x in ids :: x in Ids(base)
    requires forall cell | cell in DeleteCells(res, c, ids, base, a, b) :: OwnFacet(cell.facet)
    ensures DeleteCells(res, c, ids, base, a, b) == []
  {
    if ids != [] {
      var head := DeleteCell(res, c, ids[0], ById(base, ids[0]), ById(a, ids[0]), ById(b, ids[0]));
      var rest := DeleteCells(res, c, ids[1..], base, a, b);
      forall cell | cell in rest ensures OwnFacet(cell.facet) { assert cell in head + rest; }
      assert forall cell | cell in head :: cell in head + rest && !OwnFacet(cell.facet);
      NoDeleteCells(res, c, ids[1..], base, a, b);
    }
  }

  // A node whose children are dropped still obeys the law for everything not below it.
  lemma {:induction false} DroppedLaw(rule: Rule, base: Node, a: Node, b: Node, m: Node, owners: Owners, x: Id)
    requires Fit(base, owners) && Fit(a, owners) && Fit(b, owners) && base.id == a.id == b.id
    requires Drops(rule, base, a, b) && !Lost(rule, base, a, b, x) && KidsOf(m) == []
    requires Facetwise(rule, base, a, b, m)
    ensures Law(rule, base, a, b, m, x)
  {
    HoldsSplit(base, x);
    HoldsSplit(m, x);
    FitRoot(base, owners);
    FitRoot(a, owners);
    FitRoot(b, owners);
    SubRoot(m);
    if x != base.id && (Holds(a, x) || Holds(b, x)) {
      LostRoot(rule, base, a, b, owners, x);
    }
  }

  // The laws of the merged children make the law of the node.
  lemma {:induction false} JoinLaw(
      rule: Rule, base: Node, a: Node, b: Node, m: Node, order: seq<Id>, owners: Owners, x: Id)
    requires Fit(base, owners) && Fit(a, owners) && Fit(b, owners) && base.id == a.id == b.id == m.id
    requires Facetwise(rule, base, a, b, m)
    requires Ids(KidsOf(m)) == order && NoRepeat(order)
    requires forall j | 0 <= j < |order| :: KidLaw(rule, base, a, b, KidsOf(m)[j], order[j], x)
    requires forall cid | cid !in order :: !Survives(Under(base, cid, x), Under(a, cid, x), Under(b, cid, x))
    ensures Law(rule, base, a, b, m, x)
  {
    if x == base.id {
      NoRootBelow(rule, base, a, b, m, order, x);
      FitRoot(base, owners);
      FitRoot(a, owners);
      FitRoot(b, owners);
      SubRoot(m);
    } else {
      UnderIs(base, x, owners);
      UnderIs(a, x, owners);
      UnderIs(b, x, owners);
      if j :| 0 <= j < |order| && Holds(KidsOf(m)[j], x) {
        JoinHeld(rule, base, a, b, m, order, owners, x, j);
      } else {
        JoinAbsent(rule, base, a, b, m, order, owners, x);
      }
    }
  }

  lemma {:induction false} FitRoot(n: Node, owners: Owners)
    requires Fit(n, owners)
    ensures Holds(n, n.id) && Sub(n, n.id) == n
  {
    forall c | c in KidsOf(n) ensures !Holds(c, n.id) { RootOnce(n, c); }
    SubRoot(n);
  }

  lemma {:induction false} NoRootBelow(rule: Rule, base: Node, a: Node, b: Node, m: Node, order: seq<Id>, x: Id)
    requires UniqueIds(base) && UniqueIds(a) && UniqueIds(b) && x == base.id == a.id == b.id
    requires Ids(KidsOf(m)) == order
    requires forall j | 0 <= j < |order| :: KidLaw(rule, base, a, b, KidsOf(m)[j], order[j], x)
    ensures forall c | c in KidsOf(m) :: !Holds(c, x)
  {
    forall c | c in KidsOf(m) ensures !Holds(c, x) {
      var j :| 0 <= j < |KidsOf(m)| && KidsOf(m)[j] == c;
      assert KidLaw(rule, base, a, b, KidsOf(m)[j], order[j], x);
      NotUnderRoot(base, order[j]);
      NotUnderRoot(a, order[j]);
      NotUnderRoot(b, order[j]);
    }
  }

  lemma {:induction false} NotUnderRoot(n: Node, cid: Id)
    requires UniqueIds(n)
    ensures !Under(n, cid, n.id)
  {
    if Under(n, cid, n.id) {
      RootOnce(n, ById(KidsOf(n), cid).value);
    }
  }

  ghost predicate AnyUnder(base: Node, a: Node, b: Node, cid: Id, x: Id) {
    Under(base, cid, x) || Under(a, cid, x) || Under(b, cid, x)
  }

  lemma {:induction false} AnyUnderOnce(base: Node, a: Node, b: Node, cid: Id, did: Id, x: Id, owners: Owners)
    requires Fit(base, owners) && Fit(a, owners) && Fit(b, owners) && base.id == a.id == b.id
    requires AnyUnder(base, a, b, cid, x) && AnyUnder(base, a, b, did, x)
    ensures cid == did
  {
    var m := if Under(base, cid, x) then base else if Under(a, cid, x) then a else b;
    var n := if Under(base, did, x) then base else if Under(a, did, x) then a else b;
    UnderOnce(m, n, cid, did, x, owners);
  }

  lemma {:induction false} JoinHeld(
      rule: Rule, base: Node, a: Node, b: Node, m: Node, order: seq<Id>, owners: Owners, x: Id, j: nat)
    requires Fit(base, owners) && Fit(a, owners) && Fit(b, owners) && base.id == a.id == b.id == m.id && x != m.id
    requires Ids(KidsOf(m)) == order && NoRepeat(order)
    requires forall j | 0 <= j < |order| :: KidLaw(rule, base, a, b, KidsOf(m)[j], order[j], x)
    requires j < |order| && Holds(KidsOf(m)[j], x)
    ensures Law(rule, base, a, b, m, x)
  {
    var cid := order[j];
    assert KidLaw(rule, base, a, b, KidsOf(m)[j], cid, x);
    assert AnyUnder(base, a, b, cid, x);
    forall i | 0 <= i < |KidsOf(m)| && i != j ensures !Holds(KidsOf(m)[i], x) {
      if Holds(KidsOf(m)[i], x) {
        assert KidLaw(rule, base, a, b, KidsOf(m)[i], order[i], x);
        AnyUnderOnce(base, a, b, cid, order[i], x, owners);
      }
    }
    SubKid(m, j, x);
    OnlyUnder(base, a, b, base, cid, x, owners);
    OnlyUnder(base, a, b, a, cid, x, owners);
    OnlyUnder(base, a, b, b, cid, x, owners);
  }

  // Once an id is under one child id, each version holds it there or not at all.
  lemma {:induction false} OnlyUnder(base: Node, a: Node, b: Node, n: Node, cid: Id, x: Id, owners: Owners)
    requires Fit(base, owners) && Fit(a, owners) && Fit(b, owners) && base.id == a.id == b.id && x != base.id
    requires n == base || n == a || n == b
    requires AnyUnder(base, a, b, cid, x)
    ensures Holds(n, x) <==> Under(n, cid, x)
    ensures Holds(n, x) ==> Sub(n, x) == Sub(ById(KidsOf(n), cid).value, x)
  {
    UnderIs(n, x, owners);
    if Holds(n, x) {
      var did :| Under(n, did, x);
      AnyUnderOnce(base, a, b, cid, did, x, owners);
    }
  }

  lemma {:induction false} JoinAbsent(
      rule: Rule, base: Node, a: Node, b: Node, m: Node, order: seq<Id>, owners: Owners, x: Id)
    requires Fit(base, owners) && Fit(a, owners) && Fit(b, owners) && base.id == a.id == b.id == m.id && x != m.id
    requires Ids(KidsOf(m)) == order && forall j | 0 <= j < |order| :: !Holds(KidsOf(m)[j], x)
    requires forall j | 0 <= j < |order| :: KidLaw(rule, base, a, b, KidsOf(m)[j], order[j], x)
    requires forall cid | cid !in order :: !Survives(Under(base, cid, x), Under(a, cid, x), Under(b, cid, x))
    ensures Law(rule, base, a, b, m, x)
  {
    HoldsSplit(m, x);
    assert !Holds(m, x) by {
      forall c | c in KidsOf(m) ensures !Holds(c, x) {
        var j :| 0 <= j < |KidsOf(m)| && KidsOf(m)[j] == c;
      }
    }
    UnderIs(base, x, owners);
    UnderIs(a, x, owners);
    UnderIs(b, x, owners);
    if cid :| AnyUnder(base, a, b, cid, x) {
      OnlyUnder(base, a, b, base, cid, x, owners);
      OnlyUnder(base, a, b, a, cid, x, owners);
      OnlyUnder(base, a, b, b, cid, x, owners);
      if cid in order {
        var j :| 0 <= j < |order| && order[j] == cid;
        assert KidLaw(rule, base, a, b, KidsOf(m)[j], cid, x);
      }
    } else {
      forall cid ensures !Under(base, cid, x) && !Under(a, cid, x) && !Under(b, cid, x) {
        assert !AnyUnder(base, a, b, cid, x);
      }
    }
  }

  lemma {:induction false} KidsLaw(
    rule: Rule, c: Context, wholeA: Node, wholeB: Node, base: Node, a: Node, b: Node, owners: Owners,
    order: seq<Id>, x: Id)
    requires Scene(c, wholeA, wholeB, base, a, b, owners) && Stored3(base, a, b)
    requires Admits(rule, MergeKids(rule.res, c, order, base, KidsOf(a), KidsOf(b)).1)
    requires forall cid | cid in order ::
      Survives(cid in Ids(KidsOf(base)), cid in Ids(KidsOf(a)), cid in Ids(KidsOf(b)))
    requires !Lost(rule, base, a, b, x)
    ensures var kids := MergeKids(rule.res, c, order, base, KidsOf(a), KidsOf(b)).0;
            Ids(kids) == order && forall j | 0 <= j < |order| :: KidLaw(rule, base, a, b, kids[j], order[j], x)
    decreases Size(base), 0, |order|
  {
    if order != [] {
      var head := MergeKid(rule.res, c, order[0], base, KidsOf(a), KidsOf(b));
      var rest := MergeKids(rule.res, c, order[1..], base, KidsOf(a), KidsOf(b));
      assert forall cell | cell in head.1 :: cell in head.1 + rest.1;
      assert forall cell | cell in rest.1 :: cell in head.1 + rest.1;
      KidLawHolds(rule, c, wholeA, wholeB, base, a, b, owners, order[0], x);
      KidsLaw(rule, c, wholeA, wholeB, base, a, b, owners, order[1..], x);
      ListLaw(rule, base, a, b, head.0, rest.0, order, x);
    }
  }

  lemma {:induction false} ListLaw(
      rule: Rule, base: Node, a: Node, b: Node, head: seq<Node>, rest: seq<Node>, order: seq<Id>, x: Id)
    requires order != [] && Ids(head) == [order[0]] && KidLaw(rule, base, a, b, head[0], order[0], x)
    requires Ids(rest) == order[1..]
    requires forall j | 0 <= j < |order[1..]| :: KidLaw(rule, base, a, b, rest[j], order[1..][j], x)
    ensures Ids(head + rest) == order
    ensures forall j | 0 <= j < |order| :: KidLaw(rule, base, a, b, (head + rest)[j], order[j], x)
  {
    assert Ids(head + rest) == Ids(head) + Ids(rest);
    assert order == [order[0]] + order[1..];
    forall j | 0 <= j < |order| ensures KidLaw(rule, base, a, b, (head + rest)[j], order[j], x) {
      if j > 0 {
        assert (head + rest)[j] == rest[j - 1] && order[j] == order[1..][j - 1];
      }
    }
  }

  lemma {:induction false} KidLawHolds(
    rule: Rule, c: Context, wholeA: Node, wholeB: Node, base: Node, a: Node, b: Node, owners: Owners,
    cid: Id, x: Id)
    requires Scene(c, wholeA, wholeB, base, a, b, owners) && Stored3(base, a, b)
    requires Admits(rule, MergeKid(rule.res, c, cid, base, KidsOf(a), KidsOf(b)).1)
    requires Survives(cid in Ids(KidsOf(base)), cid in Ids(KidsOf(a)), cid in Ids(KidsOf(b)))
    requires !Lost(rule, base, a, b, x)
    ensures var kids := MergeKid(rule.res, c, cid, base, KidsOf(a), KidsOf(b)).0;
            Ids(kids) == [cid] && KidLaw(rule, base, a, b, kids[0], cid, x)
    decreases Size(base), 0, 0
  {
    var bc, ac, bb := ById(KidsOf(base), cid), ById(KidsOf(a), cid), ById(KidsOf(b), cid);
    if bc.Some? {
      KidSmaller(base, bc.value);
      MatchedKid(rule, c, wholeA, wholeB, base, a, b, bc.value, ac.value, bb.value, owners, x);
      MergeLaw(rule, c, wholeA, wholeB, bc.value, ac.value, bb.value, owners, x);
    } else {
      AddedKid(rule, c, base, a, b, cid, x);
    }
  }

  // A child all three versions hold meets what the law asks of it.
  lemma {:induction false} MatchedKid(
    rule: Rule, c: Context, wholeA: Node, wholeB: Node, base: Node, a: Node, b: Node, bc: Node, ac: Node, bb: Node,
    owners: Owners, x: Id)
    requires Scene(c, wholeA, wholeB, base, a, b, owners) && Stored3(base, a, b)
    requires !Lost(rule, base, a, b, x) && bc.id == ac.id == bb.id
    requires ById(KidsOf(base), bc.id) == Some(bc)
    requires ById(KidsOf(a), ac.id) == Some(ac) && ById(KidsOf(b), bb.id) == Some(bb)
    ensures Scene(c, wholeA, wholeB, bc, ac, bb, owners) && Stored3(bc, ac, bb)
    ensures !Lost(rule, bc, ac, bb, x)
  {
    SceneKid(c, wholeA, wholeB, base, a, b, owners, bc, ac, bb);
    StoredKid(base, bc);
    StoredKid(a, ac);
    StoredKid(b, bb);
    if Lost(rule, bc, ac, bb, x) {
      LostKid(rule, base, a, b, bc, ac, bb, owners, x);
    }
  }

  // A child the base lacks is carried verbatim, or refused.
  lemma {:induction false} AddedKid(rule: Rule, c: Context, base: Node, a: Node, b: Node, cid: Id, x: Id)
    requires ById(KidsOf(base), cid).None? && (cid in Ids(KidsOf(a)) || cid in Ids(KidsOf(b)))
    requires Admits(rule, MergeKid(rule.res, c, cid, base, KidsOf(a), KidsOf(b)).1)
    ensures var kids := MergeKid(rule.res, c, cid, base, KidsOf(a), KidsOf(b)).0;
            Ids(kids) == [cid] && KidLaw(rule, base, a, b, kids[0], cid, x)
  {
    var ac, bb := ById(KidsOf(a), cid), ById(KidsOf(b), cid);
    if ac.Some? && bb.Some? && ac != bb {
      assert false;
    }
  }

  // -- What is lost, exactly -------------------------------------------------

  lemma {:induction false} SubFit(n: Node, p: Id, owners: Owners)
    requires Fit(n, owners) && Holds(n, p)
    ensures Sub(n, p).id == p && Fit(Sub(n, p), owners)
    decreases Size(n)
  {
    FitRoot(n, owners);
    if p != n.id {
      var c := BranchOf(n, p, owners);
      SubFit(c, p, owners);
    }
  }

  // The child of `n` that holds the id.
  lemma {:induction false} BranchOf(n: Node, p: Id, owners: Owners) returns (c: Node)
    requires Fit(n, owners) && Holds(n, p) && p != n.id
    ensures c in KidsOf(n) && Fit(c, owners) && Holds(c, p) && Sub(n, p) == Sub(c, p)
    ensures ById(KidsOf(n), c.id) == Some(c) && Size(c) < Size(n)
  {
    FitKids(n, owners);
    HoldsSplit(n, p);
    c :| c in KidsOf(n) && Holds(c, p);
    var i := KidAt(n, c);
    ByIdDistinct(KidsOf(n), i);
    SubUnder(n, c, p, owners);
    KidSmaller(n, c);
  }

  lemma {:induction false} HoldsBelow(n: Node, p: Id, x: Id, owners: Owners)
    requires Fit(n, owners) && Holds(n, p) && Holds(Sub(n, p), x)
    ensures Holds(n, x)
    decreases Size(n)
  {
    FitRoot(n, owners);
    if p != n.id {
      var c := BranchOf(n, p, owners);
      HoldsBelow(c, p, x, owners);
      HoldsSplit(n, x);
    }
  }

  // An id strictly below `p` in one tree is below `p` in every tree that holds it.
  lemma {:induction false} StaysBelow(n: Node, m: Node, p: Id, x: Id, owners: Owners)
    requires Fit(n, owners) && Fit(m, owners) && n.id == m.id
    requires Holds(n, p) && Holds(Sub(n, p), x) && x != p && Holds(m, x)
    ensures Holds(m, p) && KidsOf(Sub(m, p)) != []
    decreases Size(n)
  {
    FitRoot(n, owners);
    FitRoot(m, owners);
    if p == n.id {
      HoldsSplit(m, x);
    } else {
      var c := BranchOf(n, p, owners);
      HoldsBelow(c, p, x, owners);
      RootOnce(n, c);
      var d := BranchOf(m, x, owners);
      OneBranch(n, m, c, d, x, owners);
      StaysBelow(c, d, p, x, owners);
      SubUnder(m, d, p, owners);
    }
  }

  lemma {:induction false} DroppedKind(rule: Rule, base: Node, a: Node, b: Node, m: Node)
    requires Drops(rule, base, a, b) && Facetwise(rule, base, a, b, m)
    ensures KidsOf(m) == []
  {
  }

  // The node whose children are dropped is not lost itself.
  lemma {:induction false} DropperStays(rule: Rule, base: Node, a: Node, b: Node, owners: Owners, p: Id, x: Id)
    requires Fit(base, owners) && Fit(a, owners) && Fit(b, owners) && base.id == a.id == b.id
    requires LostAt(rule, base, a, b, p, x)
    ensures !Lost(rule, base, a, b, p) && !Holds(base, x) && (Holds(a, x) || Holds(b, x))
  {
    if q :| LostAt(rule, base, a, b, q, p) {
      StaysBelow(if Holds(Sub(a, q), p) then a else b, base, q, p, owners);
    }
    var n := if Holds(Sub(a, p), x) then a else b;
    HoldsBelow(n, p, x, owners);
    if Holds(base, x) {
      StaysBelow(n, base, p, x, owners);
    }
  }

  // A lost id should survive, and the merged tree does not hold it.
  lemma {:induction false} LostIsGone(
    rule: Rule, base: Node, a: Node, b: Node, m: Node, owners: Owners, p: Id, x: Id)
    requires Fit(base, owners) && Fit(a, owners) && Fit(b, owners) && Fit(m, owners)
    requires base.id == a.id == b.id == m.id
    requires LostAt(rule, base, a, b, p, x) && Law(rule, base, a, b, m, p)
    ensures !Holds(m, x) && !Holds(base, x) && (Holds(a, x) || Holds(b, x))
  {
    DropperStays(rule, base, a, b, owners, p, x);
    DroppedKind(rule, Sub(base, p), Sub(a, p), Sub(b, p), Sub(m, p));
    if Holds(m, x) {
      StaysBelow(if Holds(Sub(a, p), x) then a else b, m, p, x, owners);
    }
  }

  // Nothing is lost exactly when no node all three versions hold has its children dropped.
  lemma {:induction false} LostSomewhere(rule: Rule, base: Node, a: Node, b: Node, owners: Owners)
    requires Fit(base, owners) && Fit(a, owners) && Fit(b, owners)
    ensures (exists x :: Lost(rule, base, a, b, x)) <==> (exists p :: DropsUnder(rule, base, a, b, p))
  {
    if x, p :| LostAt(rule, base, a, b, p, x) {
      assert DropsUnder(rule, base, a, b, p);
    }
    if p :| DropsUnder(rule, base, a, b, p) {
      var n := if KidsOf(Sub(a, p)) != [] then a else b;
      SubFit(n, p, owners);
      var c := KidsOf(Sub(n, p))[0];
      FitKids(Sub(n, p), owners);
      assert c in KidsOf(Sub(n, p)) && Fit(c, owners);
      FitRoot(c, owners);
      HoldsSplit(Sub(n, p), c.id);
      if c.id == p {
        HeldOccurs(c, p);
      }
      assert LostAt(rule, base, a, b, p, c.id);
      assert Lost(rule, base, a, b, c.id);
    }
  }

  // All three versions hold the node, and the merge drops its children.
  ghost predicate DropsUnder(rule: Rule, base: Node, a: Node, b: Node, p: Id) {
    Holds(base, p) && Holds(a, p) && Holds(b, p) && Drops(rule, Sub(base, p), Sub(a, p), Sub(b, p))
  }

  // On unique trees that agree on where ids live, a clean merge holds an id exactly when the
  // classical three-way rule keeps it; a kept base node carries, facet by facet, the changed
  // side's value or else the base's; an added node is carried verbatim. The one exception,
  // exactly, is what lies below an empty container that one branch fills while the other
  // turns it into a kind without children.
  lemma {:induction false} CleanMergeLaw(before: (Node, Node) -> bool, base: Node, a: Node, b: Node, owners: Owners)
    requires base.id == a.id == b.id && Agree(base, a, b, owners) && Stored3(base, a, b)
    requires Merge3Way(before, base, a, b).Merged?
    ensures var rule, m := Rule(Agnostic, true), Merge3Way(before, base, a, b).tree;
      && (forall x :: Law(rule, base, a, b, m, x) <==> !Lost(rule, base, a, b, x))
      && ((forall x :: Law(rule, base, a, b, m, x)) <==> (forall p :: !DropsUnder(rule, base, a, b, p)))
      && forall x | Lost(rule, base, a, b, x) :: !Holds(m, x) && !Holds(base, x) && (Holds(a, x) || Holds(b, x))
  {
    AllLaw(Rule(Agnostic, true), before, base, a, b, owners);
  }

  // When only facet cells are contested, a merge under a pin differs in nothing but that each
  // contested facet takes the primary's value, the kind included: what it drops is below an
  // empty child list that a branch fills where the kind that wins has no children.
  lemma {:induction false} PinnedMergeLaw(
    authorA: Author, authorB: Author, before: (Node, Node) -> bool, base: Node, a: Node, b: Node, owners: Owners)
    requires base.id == a.id == b.id && Agree(base, a, b, owners) && Stored3(base, a, b)
    requires var o := Merge3WayWithAuthor(authorA, authorB, before, base, a, b);
             o.Merged? && forall c | c in o.resolved :: OwnFacet(c.facet)
    ensures var rule := Rule(ResolveAuthor(authorA, authorB), false);
      var m := Merge3WayWithAuthor(authorA, authorB, before, base, a, b).tree;
      && (forall x :: Law(rule, base, a, b, m, x) <==> !Lost(rule, base, a, b, x))
      && ((forall x :: Law(rule, base, a, b, m, x)) <==> (forall p :: !DropsUnder(rule, base, a, b, p)))
      && forall x | Lost(rule, base, a, b, x) :: !Holds(m, x) && !Holds(base, x) && (Holds(a, x) || Holds(b, x))
  {
    AllLaw(Rule(ResolveAuthor(authorA, authorB), false), before, base, a, b, owners);
  }

  lemma {:induction false} AllLaw(
    rule: Rule, before: (Node, Node) -> bool, base: Node, a: Node, b: Node, owners: Owners)
    requires base.id == a.id == b.id && Agree(base, a, b, owners) && Stored3(base, a, b)
    requires Admits(rule, MergeAll(rule.res, before, base, a, b).1)
    ensures var m := MergeAll(rule.res, before, base, a, b).0;
      && (forall x :: Law(rule, base, a, b, m, x) <==> !Lost(rule, base, a, b, x))
      && ((forall x :: Law(rule, base, a, b, m, x)) <==> (forall p :: !DropsUnder(rule, base, a, b, p)))
      && forall x | Lost(rule, base, a, b, x) :: !Holds(m, x) && !Holds(base, x) && (Holds(a, x) || Holds(b, x))
  {
    var m := MergeAll(rule.res, before, base, a, b).0;
    Settled(base, {}, owners);
    Settled(a, {}, owners);
    Settled(b, {}, owners);
    MergeFits(rule.res, before, base, a, b, owners);
    forall x | !Lost(rule, base, a, b, x) ensures Law(rule, base, a, b, m, x) {
      KeptLaw(rule, before, base, a, b, owners, x);
    }
    forall x | Lost(rule, base, a, b, x)
      ensures !Law(rule, base, a, b, m, x) && !Holds(m, x) && !Holds(base, x) && (Holds(a, x) || Holds(b, x))
    {
      var p :| LostAt(rule, base, a, b, p, x);
      DropperStays(rule, base, a, b, owners, p, x);
      LostIsGone(rule, base, a, b, m, owners, p, x);
    }
    LostSomewhere(rule, base, a, b, owners);
  }

  lemma {:induction false} MergeFits(
    res: Resolution, before: (Node, Node) -> bool, base: Node, a: Node, b: Node, owners: Owners)
    requires base.id == a.id == b.id && Agree(base, a, b, owners)
    ensures var m := MergeAll(res, before, base, a, b).0; Fit(m, owners) && m.id == base.id
  {
    MergePlaced(res, ContextOf(base, a, b, before), base, Some(a), Some(b), owners);
    MergeKeepsUnique(res, before, base, a, b, owners);
  }

  lemma {:induction false} KeptLaw(
    rule: Rule, before: (Node, Node) -> bool, base: Node, a: Node, b: Node, owners: Owners, x: Id)
    requires base.id == a.id == b.id && Agree(base, a, b, owners) && Stored3(base, a, b)
    requires UniqueIds(base) && UniqueIds(a) && UniqueIds(b)
    requires Admits(rule, MergeAll(rule.res, before, base, a, b).1)
    requires !Lost(rule, base, a, b, x)
    ensures Law(rule, base, a, b, MergeAll(rule.res, before, base, a, b).0, x)
  {
    var c := ContextOf(base, a, b, before);
    assert ValidPath(a, []) && NodeAt(a, []) == a && ValidPath(b, []) && NodeAt(b, []) == b;
    assert Scene(c, a, b, base, a, b, owners);
    var moves, cells := DetectMoves(rule.res, base, a, b), Merge3(rule.res, c, base, Some(a), Some(b)).1;
    assert forall cell | cell in cells :: cell in moves + cells;
    assert Admits(rule, cells);
    MergeLaw(rule, c, a, b, base, a, b, owners, x);
  }
}
