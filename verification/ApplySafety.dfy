// Apply keeps a tree whose ids are unique and whose depth and count are within
// the wire limits, whatever the intermediate trees of a batch looked like.
//
// Inside a batch an id may repeat, and a structural op then reads one node and
// rewrites another with the same id, so counting occurrences is not an invariant.
// What every step keeps is that an id the op did not install has one owner: the
// same parent id, in the same kind of position, wherever it occurs.
module ApplySafety {
  import opened Wrappers
  import opened Tree
  import opened Ops

  datatype Owner = Root | Kid(parent: Id) | Placeholder(parent: Id)
  type Owners = map<Id, Owner>

  ghost predicate Owned(s: seq<Node>, free: set<Id>, owners: Owners, owner: Owner) {
    && (forall i {:trigger s[i]} | 0 <= i < |s| && s[i].id !in free :: s[i].id in owners && owners[s[i].id] == owner)
    && (forall i, j {:trigger s[i], s[j]} | 0 <= i < j < |s| && s[i].id !in free :: s[i].id != s[j].id)
  }

  function OwnerAt(n: Node, i: nat): Owner {
    if i < |n.kind.kids| then Kid(n.id) else Placeholder(n.id)
  }

  // Outside `free` (the installed ids) ownership is a function and siblings differ.
  ghost predicate TidyNode(n: Node, free: set<Id>, owners: Owners) {
    && (forall i {:trigger Slots(n)[i]} | 0 <= i < |Slots(n)| && Slots(n)[i].id !in free ::
          Slots(n)[i].id in owners && owners[Slots(n)[i].id] == OwnerAt(n, i))
    && (forall i, j {:trigger Slots(n)[i], Slots(n)[j]} | 0 <= i < j < |Slots(n)| && Slots(n)[i].id !in free ::
          Slots(n)[i].id != Slots(n)[j].id)
  }

  ghost predicate Tidy(n: Node, free: set<Id>, owners: Owners)
    decreases Size(n)
  {
    SlotSizes(n);
    && TidyNode(n, free, owners)
    && forall i | 0 <= i < |Slots(n)| :: Tidy(Slots(n)[i], free, owners)
  }

  ghost predicate TidyTree(n: Node, free: set<Id>, owners: Owners) {
    && Tidy(n, free, owners)
    && (n.id !in free ==> n.id in owners && owners[n.id] == Root)
  }

  lemma {:induction false} TidyAt(n: Node, p: Path, free: set<Id>, owners: Owners)
    requires ValidPath(n, p) && Tidy(n, free, owners)
    ensures Tidy(NodeAt(n, p), free, owners)
    decreases |p|
  {
    if p != [] {
      TidyAt(Slots(n)[p[0]], p[1..], free, owners);
    }
  }

  lemma {:induction false} TidySlot(n: Node, i: nat, c: Node, free: set<Id>, owners: Owners)
    requires Tidy(n, free, owners)
    requires i < |Slots(n)| && c.id == Slots(n)[i].id && Tidy(c, free, owners)
    ensures Tidy(WithSlot(n, i, c), free, owners)
  {
    var r := WithSlot(n, i, c);
    assert forall k | 0 <= k < |Slots(n)| :: Slots(r)[k].id == Slots(n)[k].id && OwnerAt(r, k) == OwnerAt(n, k);
    assert TidyNode(r, free, owners);
  }

  lemma {:induction false} TidyPut(n: Node, p: Path, m: Node, free: set<Id>, owners: Owners)
    requires ValidPath(n, p) && Tidy(n, free, owners)
    requires m.id == NodeAt(n, p).id && Tidy(m, free, owners)
    ensures Tidy(Put(n, p, m), free, owners)
    decreases |p|
  {
    if p != [] {
      TidyPut(Slots(n)[p[0]], p[1..], m, free, owners);
      TidySlot(n, p[0], Put(Slots(n)[p[0]], p[1..], m), free, owners);
    }
  }

  ghost predicate IdsWithin(n: Node, ids: set<Id>) {
    forall x | Occ(x, n) >= 1 :: x in ids
  }

  lemma {:induction false} FreeTidy(n: Node, free: set<Id>, owners: Owners)
    requires IdsWithin(n, free)
    ensures Tidy(n, free, owners)
    decreases Size(n)
  {
    SlotSizes(n);
    forall i | 0 <= i < |Slots(n)|
      ensures Slots(n)[i].id in free && Tidy(Slots(n)[i], free, owners)
    {
      forall x | Occ(x, Slots(n)[i]) >= 1 ensures x in free {
        OccSplit(x, Slots(n), i);
      }
      assert Occ(Slots(n)[i].id, Slots(n)[i]) >= 1;
      FreeTidy(Slots(n)[i], free, owners);
    }
  }

  // A node whose kids and placeholders are owned and tidy.
  lemma {:induction false} TidyFrom(n: Node, free: set<Id>, owners: Owners)
    requires Owned(n.kind.kids, free, owners, Kid(n.id))
    requires Owned(StateNodes(n.state), free, owners, Placeholder(n.id))
    requires forall i | 0 <= i < |n.kind.kids| :: Tidy(n.kind.kids[i], free, owners)
    requires forall i | 0 <= i < |StateNodes(n.state)| :: Tidy(StateNodes(n.state)[i], free, owners)
    ensures Tidy(n, free, owners)
  {
    var k := |n.kind.kids|;
    SlotParts(n);
    forall i | 0 <= i < |Slots(n)|
      ensures Tidy(Slots(n)[i], free, owners)
      ensures Slots(n)[i].id !in free ==>
        Slots(n)[i].id in owners && owners[Slots(n)[i].id] == OwnerAt(n, i)
    {
      if i >= k {
        assert Slots(n)[i] == StateNodes(n.state)[i - k];
      }
    }
    forall i, j | 0 <= i < j < |Slots(n)| && Slots(n)[i].id !in free
      ensures Slots(n)[i].id != Slots(n)[j].id
    {
      if i >= k {
        assert Slots(n)[i] == StateNodes(n.state)[i - k] && Slots(n)[j] == StateNodes(n.state)[j - k];
      }
    }
  }

  lemma {:induction false} SlotParts(n: Node)
    ensures forall i | 0 <= i < |n.kind.kids| :: Slots(n)[i] == n.kind.kids[i]
    ensures forall i | |n.kind.kids| <= i < |Slots(n)| :: Slots(n)[i] == StateNodes(n.state)[i - |n.kind.kids|]
  {
  }

  lemma {:induction false} TidyParts(n: Node, free: set<Id>, owners: Owners)
    requires Tidy(n, free, owners)
    ensures Owned(n.kind.kids, free, owners, Kid(n.id))
    ensures Owned(StateNodes(n.state), free, owners, Placeholder(n.id))
    ensures forall i | 0 <= i < |n.kind.kids| :: Tidy(n.kind.kids[i], free, owners)
    ensures forall i | 0 <= i < |StateNodes(n.state)| :: Tidy(StateNodes(n.state)[i], free, owners)
  {
    var k, states := |n.kind.kids|, StateNodes(n.state);
    forall i | 0 <= i < k
      ensures Tidy(n.kind.kids[i], free, owners)
      ensures n.kind.kids[i].id !in free ==>
        n.kind.kids[i].id in owners && owners[n.kind.kids[i].id] == Kid(n.id)
    {
      assert Slots(n)[i] == n.kind.kids[i];
    }
    forall i, j | 0 <= i < j < k && n.kind.kids[i].id !in free ensures n.kind.kids[i].id != n.kind.kids[j].id {
      assert Slots(n)[i] == n.kind.kids[i] && Slots(n)[j] == n.kind.kids[j];
    }
    forall i | 0 <= i < |states|
      ensures Tidy(states[i], free, owners)
      ensures states[i].id !in free ==> states[i].id in owners && owners[states[i].id] == Placeholder(n.id)
    {
      assert Slots(n)[k + i] == states[i];
    }
    forall i, j | 0 <= i < j < |states| && states[i].id !in free ensures states[i].id != states[j].id {
      assert Slots(n)[k + i] == states[i] && Slots(n)[k + j] == states[j];
    }
  }

  lemma {:induction false} SlotsWithin(s: seq<Node>, free: set<Id>)
    requires forall i | 0 <= i < |s| :: IdsWithin(s[i], free)
    ensures forall i | 0 <= i < |s| :: s[i].id in free
  {
    forall i | 0 <= i < |s| ensures s[i].id in free {
      assert Occ(s[i].id, s[i]) >= 1;
    }
  }

  // -- Child-list edits ------------------------------------------------------

  lemma {:induction false} WithoutOwned(s: seq<Node>, x: Id, free: set<Id>, owners: Owners, owner: Owner)
    requires Owned(s, free, owners, owner)
    ensures Owned(Without(s, x), free, owners, owner)
  {
    if s != [] {
      var t := s[1..];
      assert Owned(t, free, owners, owner);
      WithoutOwned(t, x, free, owners, owner);
      var r := Without(s, x);
      if s[0].id != x {
        forall j | 0 < j < |r| && s[0].id !in free ensures s[0].id != r[j].id {
          assert r[j] == Without(t, x)[j - 1];
          assert r[j] in t;
          var k :| 0 <= k < |t| && t[k] == r[j];
          assert s[k + 1] == t[k];
        }
        forall i, j | 0 <= i < j < |r| && r[i].id !in free ensures r[i].id != r[j].id {
          if i > 0 {
            assert r[i] == Without(t, x)[i - 1] && r[j] == Without(t, x)[j - 1];
          }
        }
      }
    }
  }

  lemma {:induction false} ReorderedOwned(s: seq<Node>, order: seq<Id>, free: set<Id>, owners: Owners, owner: Owner)
    requires SameIdMultiset(s, order) && Owned(s, free, owners, owner)
    ensures Owned(Reordered(s, order), free, owners, owner)
  {
    var r := Reordered(s, order);
    forall i, j | 0 <= i < j < |r| && r[i].id !in free ensures r[i].id != r[j].id {
      if r[i].id == r[j].id {
        var x := r[i].id;
        assert Ids(r)[i] == x && Ids(r)[j] == x;
        TwiceInMultiset(order, i, j);
        var a, b := TwoIndices(Ids(s), x);
        assert false;
      }
    }
  }

  lemma {:induction false} TwiceInMultiset(s: seq<Id>, i: nat, j: nat)
    requires i < j < |s| && s[i] == s[j]
    ensures multiset(s)[s[i]] >= 2
  {
    assert s == s[..i] + ([s[i]] + (s[i + 1..j] + ([s[j]] + s[j + 1..])));
  }

  lemma {:induction false} TwoIndices(s: seq<Id>, x: Id) returns (i: nat, j: nat)
    requires multiset(s)[x] >= 2
    ensures i < j < |s| && s[i] == s[j] == x
  {
    assert s == [s[0]] + s[1..];
    if s[0] == x {
      assert multiset(s[1..])[x] >= 1;
      assert x in s[1..];
      var k :| 0 <= k < |s[1..]| && s[1..][k] == x;
      i, j := 0, k + 1;
    } else {
      i, j := TwoIndices(s[1..], x);
      i, j := i + 1, j + 1;
    }
  }

  lemma {:induction false} KidsWritten(n: Node, kids: seq<Node>, free: set<Id>, owners: Owners)
    requires Tidy(n, free, owners)
    requires Owned(kids, free, owners, Kid(n.id))
    requires forall i | 0 <= i < |kids| :: Tidy(kids[i], free, owners)
    ensures Tidy(WithKids(n, kids), free, owners)
  {
    TidyParts(n, free, owners);
    TidyFrom(WithKids(n, kids), free, owners);
  }

  // -- What each op keeps ----------------------------------------------------

  lemma {:induction false} AtTidy(target: Id, root: Node, rewrite: Node -> Node, free: set<Id>, owners: Owners)
    requires TidyTree(root, free, owners) && ApplyAt(target, root, rewrite).Ok?
    requires forall n | Tidy(n, free, owners) :: rewrite(n).id == n.id && Tidy(rewrite(n), free, owners)
    ensures TidyTree(ApplyAt(target, root, rewrite).value, free, owners)
  {
    var p := FirstPath(target, root).value;
    TidyAt(root, p, free, owners);
    TidyPut(root, p, rewrite(NodeAt(root, p)), free, owners);
  }

  lemma {:induction false} RemoveTidy(target: Id, root: Node, free: set<Id>, owners: Owners)
    requires TidyTree(root, free, owners) && ApplyRemove(target, root).Ok?
    ensures TidyTree(ApplyRemove(target, root).value, free, owners)
  {
    var q := FirstParent(target, root).value;
    var parent := NodeAt(root, q);
    PathOcc(root, q);
    var p := FirstPath(parent.id, root).value;
    var kept := Without(parent.kind.kids, target);
    TidyAt(root, q, free, owners);
    TidyAt(root, p, free, owners);
    TidyParts(parent, free, owners);
    WithoutOwned(parent.kind.kids, target, free, owners, Kid(parent.id));
    forall i | 0 <= i < |kept| ensures Tidy(kept[i], free, owners) {
      assert kept[i] in parent.kind.kids;
    }
    KidsWritten(NodeAt(root, p), kept, free, owners);
    TidyPut(root, p, WithKids(NodeAt(root, p), kept), free, owners);
  }

  lemma {:induction false} ReorderTidy(parentId: Id, order: seq<Id>, root: Node, free: set<Id>, owners: Owners)
    requires TidyTree(root, free, owners) && ApplyReorder(parentId, order, root).Ok?
    ensures TidyTree(ApplyReorder(parentId, order, root).value, free, owners)
  {
    var p := FirstPath(parentId, root).value;
    var parent := NodeAt(root, p);
    var kids := Reordered(parent.kind.kids, order);
    TidyAt(root, p, free, owners);
    TidyParts(parent, free, owners);
    ReorderedOwned(parent.kind.kids, order, free, owners, Kid(parent.id));
    forall i | 0 <= i < |kids| ensures Tidy(kids[i], free, owners) {
      assert kids[i] in parent.kind.kids;
    }
    KidsWritten(parent, kids, free, owners);
    TidyPut(root, p, WithKids(parent, kids), free, owners);
  }

  lemma {:induction false} Disjoint(a: Node, b: Node, x: Id)
    requires !SharesId(a, b) && Occ(x, a) >= 1
    ensures Occ(x, b) == 0
  {
    OccIds(x, a);
    OccIds(x, b);
  }

  lemma {:induction false} KidOcc(n: Node, i: nat)
    requires i < |n.kind.kids|
    ensures Occ(n.kind.kids[i].id, n) >= 1
  {
    SlotParts(n);
    OccSplit(n.kind.kids[i].id, Slots(n), i);
  }

  // An insert accepted by the duplicate check, under the child's new owner.
  lemma {:induction false} InsertTidy(parentId: Id, child: Node, root: Node, free: set<Id>, owners: Owners)
    requires Tidy(root, free, owners) && ApplyInsert(parentId, child, root).Ok?
    requires child.id !in free ==> child.id in owners && owners[child.id] == Kid(parentId)
    requires Tidy(child, free, owners)
    ensures Tidy(ApplyInsert(parentId, child, root).value, free, owners)
    ensures ApplyInsert(parentId, child, root).value.id == root.id
  {
    var p := FirstPath(parentId, root).value;
    var parent := NodeAt(root, p);
    TidyAt(root, p, free, owners);
    forall i | 0 <= i < |parent.kind.kids| ensures parent.kind.kids[i].id != child.id {
      KidOcc(parent, i);
      OccAt(parent.kind.kids[i].id, root, p);
      if parent.kind.kids[i].id == child.id {
        Disjoint(child, root, child.id);
        assert false;
      }
    }
    AppendTidy(parent, child, free, owners);
    TidyPut(root, p, WithKids(parent, parent.kind.kids + [child]), free, owners);
  }

  lemma {:induction false} AppendTidy(parent: Node, child: Node, free: set<Id>, owners: Owners)
    requires Tidy(parent, free, owners) && Tidy(child, free, owners)
    requires child.id !in free ==> child.id in owners && owners[child.id] == Kid(parent.id)
    requires forall i | 0 <= i < |parent.kind.kids| :: parent.kind.kids[i].id != child.id
    ensures Tidy(WithKids(parent, parent.kind.kids + [child]), free, owners)
  {
    var kids := parent.kind.kids + [child];
    TidyParts(parent, free, owners);
    assert forall i | 0 <= i < |kids| :: kids[i] == if i < |parent.kind.kids| then parent.kind.kids[i] else child;
    KidsWritten(parent, kids, free, owners);
  }

  // An id absent from a tree may change owner without disturbing it.
  lemma {:induction false} TidyRehome(n: Node, x: Id, owner: Owner, free: set<Id>, owners: Owners)
    requires Tidy(n, free, owners) && OccSeq(x, Slots(n)) == 0
    ensures Tidy(n, free, owners[x := owner])
    decreases Size(n)
  {
    SlotSizes(n);
    forall i | 0 <= i < |Slots(n)|
      ensures Slots(n)[i].id != x && Tidy(Slots(n)[i], free, owners[x := owner])
    {
      OccSplit(x, Slots(n), i);
      TidyRehome(Slots(n)[i], x, owner, free, owners);
    }
  }

  // Below a node, a tidy id occurs only under its owner.
  lemma {:induction false} OwnerOccurs(n: Node, x: Id, free: set<Id>, owners: Owners)
    requires Tidy(n, free, owners) && x !in free && OccSeq(x, Slots(n)) >= 1
    ensures x in owners && owners[x] != Root && Occ(owners[x].parent, n) >= 1
    decreases Size(n)
  {
    SlotSizes(n);
    var i := HolderOf(x, Slots(n));
    var c := Slots(n)[i];
    if c.id == x {
      assert owners[x] == OwnerAt(n, i);
    } else {
      OwnerOccurs(c, x, free, owners);
      SlotOccurs(owners[x].parent, n, i);
    }
  }

  lemma {:induction false} SlotOccurs(x: Id, n: Node, i: nat)
    requires i < |Slots(n)|
    ensures Occ(x, Slots(n)[i]) <= Occ(x, n)
  {
    OccSplit(x, Slots(n), i);
  }

  // An accepted move is a remove, then an insert of the first node with the id.
  lemma {:induction false} MoveParts(target: Id, newParentId: Id, root: Node) returns (p: Path, removed: Node)
    requires ApplyMove(target, newParentId, root).Ok?
    ensures FirstPath(target, root) == Some(p) && ValidPath(root, p) && NodeAt(root, p).id == target
    ensures ApplyRemove(target, root) == Ok(removed)
    ensures ApplyMove(target, newParentId, root) == ApplyInsert(newParentId, NodeAt(root, p), removed)
  {
    p := FirstPath(target, root).value;
    removed := ApplyRemove(target, root).value;
  }

  lemma {:induction false} MoveTidy(target: Id, newParentId: Id, root: Node, free: set<Id>, owners: Owners)
    returns (owners': Owners)
    requires TidyTree(root, free, owners) && ApplyMove(target, newParentId, root).Ok?
    ensures TidyTree(ApplyMove(target, newParentId, root).value, free, owners')
  {
    var p, removed := MoveParts(target, newParentId, root);
    RemoveTidy(target, root, free, owners);
    TidyAt(root, p, free, owners);
    owners' := RehomeTidy(target, newParentId, root, NodeAt(root, p), removed, free, owners);
  }

  lemma {:induction false} RehomeTidy(
    target: Id, newParentId: Id, root: Node, moving: Node, removed: Node, free: set<Id>, owners: Owners)
    returns (owners': Owners)
    requires TidyTree(root, free, owners) && TidyTree(removed, free, owners) && Tidy(moving, free, owners)
    requires moving.id == target && ApplyRemove(target, root) == Ok(removed)
    requires ApplyInsert(newParentId, moving, removed).Ok?
    ensures TidyTree(ApplyInsert(newParentId, moving, removed).value, free, owners')
  {
    Disjoint(moving, removed, target);
    var home := Kid(newParentId);
    owners' := owners[target := home];
    if target !in free {
      MovedOnce(target, root, moving, removed, free, owners);
      TidyRehome(moving, target, home, free, owners);
      TidyRehome(removed, target, home, free, owners);
    } else {
      FreeRehome(moving, target, home, free, owners);
      FreeRehome(removed, target, home, free, owners);
    }
    InsertTidy(newParentId, moving, removed, free, owners');
    assert removed.id != target;
  }

  // A move the engine accepts carries the moved id once: a second copy inside the
  // moved subtree would hang under the owner's id, which stayed behind.
  lemma {:induction false} MovedOnce(target: Id, root: Node, moving: Node, removed: Node, free: set<Id>, owners: Owners)
    requires TidyTree(root, free, owners) && target !in free
    requires ApplyRemove(target, root) == Ok(removed)
    requires Tidy(moving, free, owners) && !SharesId(moving, removed)
    ensures OccSeq(target, Slots(moving)) == 0
  {
    if OccSeq(target, Slots(moving)) >= 1 {
      RemovedOwner(target, root, free, owners);
      OwnerOccurs(moving, target, free, owners);
      Disjoint(moving, removed, owners[target].parent);
      assert false;
    }
  }

  // The owner of a removed node is still there.
  lemma {:induction false} RemovedOwner(target: Id, root: Node, free: set<Id>, owners: Owners)
    requires TidyTree(root, free, owners) && ApplyRemove(target, root).Ok? && target !in free
    ensures target in owners && owners[target].Kid?
    ensures Occ(owners[target].parent, ApplyRemove(target, root).value) >= 1
  {
    var q := FirstParent(target, root).value;
    var parent := NodeAt(root, q);
    PathOcc(root, q);
    var p := FirstPath(parent.id, root).value;
    TidyAt(root, q, free, owners);
    TidyParts(parent, free, owners);
    var i :| 0 <= i < |parent.kind.kids| && Ids(parent.kind.kids)[i] == target;
    assert parent.kind.kids[i].id == target;
    var m := WithKids(NodeAt(root, p), Without(parent.kind.kids, target));
    PutAt(root, p, m);
    PathOcc(Put(root, p, m), p);
  }

  lemma {:induction false} FreeRehome(n: Node, x: Id, owner: Owner, free: set<Id>, owners: Owners)
    requires Tidy(n, free, owners) && x in free
    ensures Tidy(n, free, owners[x := owner])
    decreases Size(n)
  {
    SlotSizes(n);
    forall i | 0 <= i < |Slots(n)| ensures Tidy(Slots(n)[i], free, owners[x := owner]) {
      FreeRehome(Slots(n)[i], x, owner, free, owners);
    }
  }

  // A rewrite that leaves id, kids and state alone wherever it is used.
  ghost predicate IsFacet(rewrite: Node -> Node) {
    forall n: Node ::
      var m := rewrite(n); m.id == n.id && m.kind == n.kind && m.state == n.state
  }

  lemma {:induction false} FacetTidy(target: Id, root: Node, rewrite: Node -> Node, free: set<Id>, owners: Owners)
    requires TidyTree(root, free, owners) && ApplyAt(target, root, rewrite).Ok? && IsFacet(rewrite)
    ensures TidyTree(ApplyAt(target, root, rewrite).value, free, owners)
  {
    var p := FirstPath(target, root).value;
    PlainPut(root, p, rewrite(NodeAt(root, p)), free, owners);
  }

  ghost predicate InstallsWithin(op: Op, free: set<Id>) {
    forall i | 0 <= i < |InsertedNodes(op)| :: IdsWithin(InsertedNodes(op)[i], free)
  }

  lemma {:induction false} EditTidy(target: Id, kind: Kind, root: Node, free: set<Id>, owners: Owners)
    requires TidyTree(root, free, owners) && ApplyAt(target, root, SetKind(kind)).Ok?
    requires forall i | 0 <= i < |kind.kids| :: IdsWithin(kind.kids[i], free)
    ensures TidyTree(ApplyAt(target, root, SetKind(kind)).value, free, owners)
  {
    FreeSeq(kind.kids, free, owners);
    SlotsWithin(kind.kids, free);
    forall n | Tidy(n, free, owners) ensures Tidy(SetKind(kind)(n), free, owners) {
      TidyParts(n, free, owners);
      TidyFrom(SetKind(kind)(n), free, owners);
    }
    AtTidy(target, root, SetKind(kind), free, owners);
  }

  lemma {:induction false} StateTidy(target: Id, state: State, root: Node, free: set<Id>, owners: Owners)
    requires TidyTree(root, free, owners) && ApplyAt(target, root, SetState(state)).Ok?
    requires forall i | 0 <= i < |StateNodes(state)| :: IdsWithin(StateNodes(state)[i], free)
    ensures TidyTree(ApplyAt(target, root, SetState(state)).value, free, owners)
  {
    FreeSeq(StateNodes(state), free, owners);
    SlotsWithin(StateNodes(state), free);
    forall n | Tidy(n, free, owners) ensures Tidy(SetState(state)(n), free, owners) {
      TidyParts(n, free, owners);
      TidyFrom(SetState(state)(n), free, owners);
    }
    AtTidy(target, root, SetState(state), free, owners);
  }

  lemma {:induction false} PropTidy(
    target: Id, path: string, update: (string, Fields) -> Result<Fields, Code>,
    root: Node, free: set<Id>, owners: Owners)
    requires TidyTree(root, free, owners) && ApplyUpdateProp(target, path, update, root).Ok?
    ensures TidyTree(ApplyUpdateProp(target, path, update, root).value, free, owners)
  {
    var p := FirstPath(target, root).value;
    var n := NodeAt(root, p);
    PlainPut(root, p, n.(kind := n.kind.(fields := update(n.kind.tag, n.kind.fields).value)), free, owners);
  }

  lemma {:induction false} BindingTidy(
      target: Id, slot: string, binding: string, root: Node, free: set<Id>, owners: Owners)
    requires TidyTree(root, free, owners) && ApplyBinding(target, slot, binding, root).Ok?
    ensures TidyTree(ApplyBinding(target, slot, binding, root).value, free, owners)
  {
    var p := FirstPath(target, root).value;
    var n := NodeAt(root, p);
    var key := BindingKey(n.kind.tag, slot).value;
    PlainPut(root, p, n.(kind := n.kind.(fields := n.kind.fields[key := binding])), free, owners);
  }

  lemma {:induction false} InstalledTidy(n: Node, free: set<Id>, owners: Owners)
    requires IdsWithin(n, free)
    ensures TidyTree(n, free, owners)
  {
    FreeTidy(n, free, owners);
    assert Occ(n.id, n) >= 1;
  }

  // The ops that install no node; a move is the only one that gives an id a new owner.
  lemma {:induction false} QuietTidy(
      op: Op, root: Node, result: Node, free: set<Id>, owners: Owners)
      returns (owners': Owners)
    requires TidyTree(root, free, owners) && ApplyOne(op, root) == Ok(result)
    requires !(op.EditNode? || op.UpdateState? || op.InsertChild? || op.ReplaceRoot? || op.Batch?)
    ensures TidyTree(result, free, owners')
  {
    owners' := owners;
    match op {
      case UpdateProp(target, path, update) => PropTidy(target, path, update, root, free, owners);
      case ReplaceBinding(target, slot, binding) => BindingTidy(target, slot, binding, root, free, owners);
      case UpdateStyle(target, style) => FacetTidy(target, root, SetStyle(style), free, owners);
      case PatchStyle(target, delta) => FacetTidy(target, root, MergeStyle(delta), free, owners);
      case UpdateAccessibility(target, access) => FacetTidy(target, root, SetAccess(access), free, owners);
      case UpdateTooltip(target, tooltip) => FacetTidy(target, root, SetTooltip(tooltip), free, owners);
      case RemoveNode(target) => RemoveTidy(target, root, free, owners);
      case MoveNode(target, newParentId) => owners' := MoveTidy(target, newParentId, root, free, owners);
      case ReorderChildren(parentId, newOrder) => ReorderTidy(parentId, newOrder, root, free, owners);
    }
  }

  lemma {:induction false} InstallTidy(op: Op, root: Node, result: Node, free: set<Id>, owners: Owners)
    requires TidyTree(root, free, owners) && InstallsWithin(op, free) && ApplyOne(op, root) == Ok(result)
    requires op.EditNode? || op.UpdateState? || op.InsertChild? || op.ReplaceRoot?
    ensures TidyTree(result, free, owners)
  {
    var installed := InsertedNodes(op);
    match op {
      case EditNode(target, newKind) =>
        assert installed == newKind.kids;
        EditTidy(target, newKind, root, free, owners);
      case UpdateState(target, state) =>
        assert installed == StateNodes(state);
        StateTidy(target, state, root, free, owners);
      case InsertChild(parentId, child) =>
        assert installed[0] == child;
        InstalledTidy(child, free, owners);
        InsertTidy(parentId, child, root, free, owners);
      case ReplaceRoot(node) =>
        assert installed[0] == node;
        InstalledTidy(node, free, owners);
    }
  }

  lemma {:induction false} OneTidy(op: Op, root: Node, result: Node, free: set<Id>, owners: Owners)
    returns (owners': Owners)
    requires TidyTree(root, free, owners) && InstallsWithin(op, free) && ApplyOne(op, root) == Ok(result)
    ensures TidyTree(result, free, owners')
    decreases op
  {
    if op.Batch? {
      assert InsertedNodes(op) == InsertedSeq(op.ops);
      owners' := SeqTidy(op.ops, 0, root, result, free, owners);
    } else if op.EditNode? || op.UpdateState? || op.InsertChild? || op.ReplaceRoot? {
      owners' := owners;
      InstallTidy(op, root, result, free, owners);
    } else {
      owners' := QuietTidy(op, root, result, free, owners);
    }
  }

  lemma {:induction false} SeqTidy(ops: seq<Op>, done: nat, root: Node, result: Node, free: set<Id>, owners: Owners)
    returns (owners': Owners)
    requires TidyTree(root, free, owners) && ApplySeq(ops, done, root) == Ok(result)
    requires forall i | 0 <= i < |InsertedSeq(ops)| :: IdsWithin(InsertedSeq(ops)[i], free)
    ensures TidyTree(result, free, owners')
    decreases ops
  {
    owners' := owners;
    if ops != [] {
      var head, rest := InsertedNodes(ops[0]), InsertedSeq(ops[1..]);
      assert InsertedSeq(ops) == head + rest;
      assert forall i | 0 <= i < |head| :: head[i] == InsertedSeq(ops)[i];
      assert forall i | 0 <= i < |rest| :: rest[i] == InsertedSeq(ops)[|head| + i];
      var next := ApplyOne(ops[0], root).value;
      owners' := OneTidy(ops[0], root, next, free, owners);
      owners' := SeqTidy(ops[1..], done + 1, next, result, free, owners');
    }
  }

  lemma {:induction false} FreeSeq(s: seq<Node>, free: set<Id>, owners: Owners)
    requires forall i | 0 <= i < |s| :: IdsWithin(s[i], free)
    ensures forall i | 0 <= i < |s| :: Tidy(s[i], free, owners)
  {
    forall i | 0 <= i < |s| ensures Tidy(s[i], free, owners) {
      FreeTidy(s[i], free, owners);
    }
  }

  // A rewrite that leaves id, kids and state alone.
  lemma {:induction false} PlainPut(root: Node, p: Path, m: Node, free: set<Id>, owners: Owners)
    requires TidyTree(root, free, owners) && ValidPath(root, p)
    requires var n := NodeAt(root, p); m.id == n.id && m.kind.kids == n.kind.kids && m.state == n.state
    ensures TidyTree(Put(root, p, m), free, owners)
  {
    TidyAt(root, p, free, owners);
    TidyParts(NodeAt(root, p), free, owners);
    TidyFrom(m, free, owners);
    TidyPut(root, p, m, free, owners);
  }

  // -- From a unique tree, and back to one -----------------------------------

  function Above(p: Path): Path
    requires p != []
  {
    p[..|p| - 1]
  }

  lemma {:induction false} AboveValid(n: Node, p: Path)
    requires ValidPath(n, p) && p != []
    ensures ValidPath(n, Above(p))
    ensures p[|p| - 1] < |Slots(NodeAt(n, Above(p)))|
    ensures NodeAt(n, p) == Slots(NodeAt(n, Above(p)))[p[|p| - 1]]
  {
    assert p == Above(p) + [p[|p| - 1]];
    PathPrefix(n, Above(p), [p[|p| - 1]]);
    PathConcat(n, Above(p), [p[|p| - 1]]);
  }

  function OwnerIn(n: Node, p: Path): Owner
    requires ValidPath(n, p)
  {
    if p == [] then Root else
    AboveValid(n, p);
    OwnerAt(NodeAt(n, Above(p)), p[|p| - 1])
  }

  function OwnersOf(n: Node): Owners {
    map x | x in AllIds(n) :: OccIds(x, n); OwnerIn(n, FirstPath(x, n).value)
  }

  lemma {:induction false} UniqueOwner(n: Node, p: Path)
    requires UniqueIds(n) && ValidPath(n, p)
    ensures var x := NodeAt(n, p).id; x in OwnersOf(n) && OwnersOf(n)[x] == OwnerIn(n, p)
  {
    var x := NodeAt(n, p).id;
    PathOcc(n, p);
    OccIds(x, n);
    UniquePath(n, p, FirstPath(x, n).value);
  }

  lemma {:induction false} UniqueTidyAt(n: Node, p: Path, free: set<Id>)
    requires UniqueIds(n) && ValidPath(n, p)
    ensures Tidy(NodeAt(n, p), free, OwnersOf(n))
    decreases Size(NodeAt(n, p))
  {
    var m := NodeAt(n, p);
    SlotSizes(m);
    forall i | 0 <= i < |Slots(m)|
      ensures Slots(m)[i].id in OwnersOf(n) && OwnersOf(n)[Slots(m)[i].id] == OwnerAt(m, i)
      ensures Tidy(Slots(m)[i], free, OwnersOf(n))
    {
      SlotOwner(n, p, i);
      UniqueTidyAt(n, p + [i], free);
    }
    forall i, j | 0 <= i < j < |Slots(m)| ensures Slots(m)[i].id != Slots(m)[j].id {
      UniqueSiblings(n, p, i, j);
    }
  }

  lemma {:induction false} SlotOwner(n: Node, p: Path, i: nat)
    requires UniqueIds(n) && ValidPath(n, p) && i < |Slots(NodeAt(n, p))|
    ensures ValidPath(n, p + [i]) && NodeAt(n, p + [i]) == Slots(NodeAt(n, p))[i]
    ensures var x := Slots(NodeAt(n, p))[i].id;
            x in OwnersOf(n) && OwnersOf(n)[x] == OwnerAt(NodeAt(n, p), i)
  {
    PathConcat(n, p, [i]);
    UniqueOwner(n, p + [i]);
    assert Above(p + [i]) == p;
  }

  lemma {:induction false} LastStep(p: Path, i: nat, j: nat)
    requires p + [i] == p + [j]
    ensures i == j
  {
    assert (p + [i])[|p|] == (p + [j])[|p|];
  }

  lemma {:induction false} UniqueSiblings(n: Node, p: Path, i: nat, j: nat)
    requires UniqueIds(n) && ValidPath(n, p) && i < j < |Slots(NodeAt(n, p))|
    ensures Slots(NodeAt(n, p))[i].id != Slots(NodeAt(n, p))[j].id
  {
    var m := NodeAt(n, p);
    if Slots(m)[i].id == Slots(m)[j].id {
      PathConcat(n, p, [i]);
      PathConcat(n, p, [j]);
      UniquePath(n, p + [i], p + [j]);
      LastStep(p, i, j);
    }
  }

  lemma {:induction false} UniqueTidy(n: Node, free: set<Id>)
    requires UniqueIds(n)
    ensures TidyTree(n, free, OwnersOf(n))
  {
    UniqueTidyAt(n, [], free);
    UniqueOwner(n, []);
  }

  // In a tidy tree whose installed ids occur once, an id has one place: walk up from
  // two occurrences; their owners agree, so the first difference is at an installed
  // id or between two siblings.
  lemma {:induction false} SettledPaths(n: Node, p: Path, q: Path, free: set<Id>, owners: Owners)
    requires TidyTree(n, free, owners) && forall x | x in free :: Occ(x, n) <= 1
    requires ValidPath(n, p) && ValidPath(n, q) && NodeAt(n, p).id == NodeAt(n, q).id
    ensures p == q
    decreases |p| + |q|
  {
    var x := NodeAt(n, p).id;
    if x in free {
      if p != q {
        PathsOcc(n, p, q);
        assert false;
      }
    } else {
      TidyOwner(n, p, free, owners);
      TidyOwner(n, q, free, owners);
      if p != [] && q != [] {
        var i, j := p[|p| - 1], q[|q| - 1];
        AboveValid(n, p);
        AboveValid(n, q);
        SettledPaths(n, Above(p), Above(q), free, owners);
        var m := NodeAt(n, Above(p));
        TidyAt(n, Above(p), free, owners);
        TidySiblings(m, free, owners, i, j);
        assert p == Above(p) + [i] && q == Above(q) + [j];
      }
    }
  }

  lemma {:induction false} TidySiblings(m: Node, free: set<Id>, owners: Owners, i: nat, j: nat)
    requires TidyNode(m, free, owners) && i < |Slots(m)| && j < |Slots(m)|
    requires Slots(m)[i].id == Slots(m)[j].id && Slots(m)[i].id !in free
    ensures i == j
  {
  }

  lemma {:induction false} TidyOwner(n: Node, p: Path, free: set<Id>, owners: Owners)
    requires TidyTree(n, free, owners) && ValidPath(n, p) && NodeAt(n, p).id !in free
    ensures NodeAt(n, p).id in owners && owners[NodeAt(n, p).id] == OwnerIn(n, p)
  {
    if p != [] {
      AboveValid(n, p);
      TidyAt(n, Above(p), free, owners);
      assert TidyNode(NodeAt(n, Above(p)), free, owners);
    }
  }

  lemma {:induction false} Settled(n: Node, free: set<Id>, owners: Owners)
    requires TidyTree(n, free, owners) && forall x | x in free :: Occ(x, n) <= 1
    ensures UniqueIds(n)
  {
    forall x ensures Occ(x, n) <= 1 {
      if Occ(x, n) >= 2 {
        var p, q := TwoPaths(x, n);
        SettledPaths(n, p, q, free, owners);
        assert false;
      }
    }
  }

  // -- Ids stay unique -------------------------------------------------------

  function InstalledIds(s: seq<Node>): (r: set<Id>) {
    if s == [] then {} else (set x | x in AllIds(s[0])) + InstalledIds(s[1..])
  }

  lemma {:induction false} InstalledIn(s: seq<Node>, x: Id)
    ensures x in InstalledIds(s) <==> exists i | 0 <= i < |s| :: x in AllIds(s[i])
  {
    if s != [] {
      InstalledIn(s[1..], x);
      if x in InstalledIds(s) && x !in AllIds(s[0]) {
        var k :| 0 <= k < |s[1..]| && x in AllIds(s[1..][k]);
        assert x in AllIds(s[k + 1]);
      }
      if i :| 0 <= i < |s| && x in AllIds(s[i]) {
        assert i > 0 ==> s[i] == s[1..][i - 1];
      }
    }
  }

  // The reducer, with the duplicate guard: ids end unique whatever a batch did
  // on the way.
  lemma {:induction false} UniqueKept(op: Op, tree: Node, result: Node)
    requires UniqueIds(tree) && ApplyOne(op, tree) == Ok(result)
    requires !InstallsDuplicate(InsertedNodes(op), result)
    ensures UniqueIds(result)
  {
    var installed := InsertedNodes(op);
    var free := InstalledIds(installed);
    forall i, x | 0 <= i < |installed| && Occ(x, installed[i]) >= 1 ensures x in free {
      OccIds(x, installed[i]);
      InstalledIn(installed, x);
    }
    UniqueTidy(tree, free);
    var owners := OneTidy(op, tree, result, free, OwnersOf(tree));
    forall x | x in free ensures Occ(x, result) <= 1 {
      InstalledIn(installed, x);
    }
    Settled(result, free, owners);
  }

  // -- Limits ----------------------------------------------------------------

  // Two lists with the same elements: the head of one, taken out of the other.
  lemma {:induction false} TakeOut(s: seq<Node>, t: seq<Node>) returns (k: nat)
    requires multiset(s) == multiset(t) && s != []
    ensures k < |t| && t[k] == s[0]
    ensures multiset(s[1..]) == multiset(t[..k] + t[k + 1..])
  {
    assert s[0] in multiset(t);
    k :| 0 <= k < |t| && t[k] == s[0];
    CutOut(t, k);
    HeadOut(s);
  }

  lemma {:induction false} HeadOut(s: seq<Node>)
    requires s != []
    ensures multiset(s) - multiset{s[0]} == multiset(s[1..])
  {
    assert s == [s[0]] + s[1..];
  }

  lemma {:induction false} CutOut(s: seq<Node>, k: nat)
    requires k < |s|
    ensures multiset(s) == multiset{s[k]} + multiset(s[..k] + s[k + 1..])
    ensures multiset(s) - multiset{s[k]} == multiset(s[..k] + s[k + 1..])
  {
    assert s == s[..k] + ([s[k]] + s[k + 1..]);
  }

  lemma {:induction false} SizePermutation(s: seq<Node>, t: seq<Node>)
    requires multiset(s) == multiset(t)
    ensures SizeSeq(s) == SizeSeq(t)
  {
    if s == [] {
      assert |multiset(t)| == 0;
    } else {
      var k := TakeOut(s, t);
      SizePermutation(s[1..], t[..k] + t[k + 1..]);
      SizeConcat(t[..k], t[k + 1..]);
      SizeConcat(t[..k], [t[k]] + t[k + 1..]);
      assert t == t[..k] + ([t[k]] + t[k + 1..]);
      assert ([t[k]] + t[k + 1..])[1..] == t[k + 1..];
    }
  }

  ghost predicate DistinctIds(s: seq<Node>) {
    forall i, j | 0 <= i < j < |s| :: s[i].id != s[j].id
  }

  lemma {:induction false} DistinctKids(root: Node, p: Path)
    requires UniqueIds(root) && ValidPath(root, p)
    ensures DistinctIds(NodeAt(root, p).kind.kids)
  {
    var n := NodeAt(root, p);
    forall i, j | 0 <= i < j < |n.kind.kids| ensures n.kind.kids[i].id != n.kind.kids[j].id {
      UniqueSiblings(root, p, i, j);
      assert Slots(n)[i] == n.kind.kids[i] && Slots(n)[j] == n.kind.kids[j];
    }
  }

  lemma {:induction false} DistinctCount(s: seq<Node>, c: Node)
    requires DistinctIds(s)
    ensures multiset(s)[c] == if c in s then 1 else 0
  {
    if c in s {
      var k :| 0 <= k < |s| && s[k] == c;
      assert s == s[..k] + ([s[k]] + s[k + 1..]);
      assert c !in s[..k] && c !in s[k + 1..];
    }
  }

  // With distinct ids, naming every id once permutes the children.
  lemma {:induction false} ReorderedPermutes(kids: seq<Node>, order: seq<Id>)
    requires DistinctIds(kids) && SameIdMultiset(kids, order)
    ensures multiset(Reordered(kids, order)) == multiset(kids)
  {
    var r := Reordered(kids, order);
    forall i, j | 0 <= i < j < |r| ensures r[i].id != r[j].id {
      if r[i].id == r[j].id {
        assert Ids(r)[i] == Ids(r)[j];
        TwiceInMultiset(order, i, j);
        var a, b := TwoIndices(Ids(kids), order[i]);
        assert false;
      }
    }
    forall c ensures multiset(r)[c] == multiset(kids)[c] {
      DistinctCount(r, c);
      DistinctCount(kids, c);
      if c in kids {
        var k :| 0 <= k < |kids| && kids[k] == c;
        assert Ids(kids)[k] in multiset(order);
        var l :| 0 <= l < |order| && order[l] == c.id;
        assert r[l].id == c.id && r[l] in kids;
        var k' :| 0 <= k' < |kids| && kids[k'] == r[l];
        assert k' == k;
      }
    }
  }

  lemma {:induction false} WithoutShrinks(s: seq<Node>, x: Id)
    ensures SizeSeq(Without(s, x)) <= SizeSeq(s)
    ensures |Without(s, x)| <= |s|
  {
    if s != [] {
      WithoutShrinks(s[1..], x);
      if s[0].id != x {
        assert Without(s, x)[1..] == Without(s[1..], x);
      }
    }
  }

  lemma {:induction false} KidsShrink(n: Node, kids: seq<Node>)
    requires IsLayout(n) && SizeSeq(kids) <= SizeSeq(n.kind.kids)
    requires forall c | c in kids :: c in n.kind.kids
    ensures Size(WithKids(n, kids)) <= Size(n) && Depth(WithKids(n, kids)) <= Depth(n)
  {
    var r := WithKids(n, kids);
    SlotParts(n);
    SlotParts(r);
    forall k | 0 <= k < |Slots(r)| ensures Depth(Slots(r)[k]) <= DepthSeq(Slots(n)) {
      if k < |kids| {
        assert kids[k] in n.kind.kids;
        var l :| 0 <= l < |n.kind.kids| && n.kind.kids[l] == kids[k];
        DepthSlot(Slots(n), l);
      } else {
        DepthSlot(Slots(n), k - |kids| + |n.kind.kids|);
      }
    }
    DepthBound(Slots(r), DepthSeq(Slots(n)));
  }

  ghost predicate NoLarger(r: Node, n: Node) {
    Size(r) <= Size(n) && Depth(r) <= Depth(n)
  }

  lemma {:induction false} RemoveShrinks(target: Id, root: Node)
    requires UniqueIds(root) && ApplyRemove(target, root).Ok?
    ensures NoLarger(ApplyRemove(target, root).value, root)
  {
    var q := FirstParent(target, root).value;
    var parent := NodeAt(root, q);
    PathOcc(root, q);
    UniquePath(root, q, FirstPath(parent.id, root).value);
    WithoutShrinks(parent.kind.kids, target);
    KidsShrink(parent, Without(parent.kind.kids, target));
    PutShrinks(root, q, WithKids(parent, Without(parent.kind.kids, target)));
  }

  lemma {:induction false} ReorderShrinks(parentId: Id, order: seq<Id>, root: Node)
    requires UniqueIds(root) && ApplyReorder(parentId, order, root).Ok?
    ensures NoLarger(ApplyReorder(parentId, order, root).value, root)
  {
    var p := FirstPath(parentId, root).value;
    var parent := NodeAt(root, p);
    DistinctKids(root, p);
    ReorderedPermutes(parent.kind.kids, order);
    var kids := Reordered(parent.kind.kids, order);
    SizePermutation(kids, parent.kind.kids);
    KidsShrink(parent, kids);
    PutShrinks(root, p, WithKids(parent, kids));
  }

  lemma {:induction false} FacetShrinks(target: Id, root: Node, rewrite: Node -> Node)
    requires ApplyAt(target, root, rewrite).Ok? && IsFacet(rewrite)
    ensures NoLarger(ApplyAt(target, root, rewrite).value, root)
  {
    var p := FirstPath(target, root).value;
    SameSlots(NodeAt(root, p), rewrite(NodeAt(root, p)));
    PutShrinks(root, p, rewrite(NodeAt(root, p)));
  }

  lemma {:induction false} SameSlots(n: Node, m: Node)
    requires m.kind.kids == n.kind.kids && m.state == n.state
    ensures NoLarger(m, n)
  {
    assert Slots(m) == Slots(n);
  }

  lemma {:induction false} BareShrinks(target: Id, root: Node, rewrite: Node -> Node)
    requires ApplyAt(target, root, rewrite).Ok?
    requires forall n :: var m := rewrite(n);
      && (m.kind.kids == n.kind.kids || m.kind.kids == [])
      && (m.state == n.state || StateNodes(m.state) == [])
    ensures NoLarger(ApplyAt(target, root, rewrite).value, root)
  {
    var p := FirstPath(target, root).value;
    var n := NodeAt(root, p);
    var m := rewrite(n);
    BareSlots(n, m);
    PutShrinks(root, p, m);
  }

  lemma {:induction false} BareSlots(n: Node, m: Node)
    requires m.kind.kids == n.kind.kids || m.kind.kids == []
    requires m.state == n.state || StateNodes(m.state) == []
    ensures NoLarger(m, n)
  {
    SlotParts(n);
    SlotParts(m);
    forall k | 0 <= k < |Slots(m)| ensures Depth(Slots(m)[k]) <= DepthSeq(Slots(n)) {
      if k < |m.kind.kids| {
        DepthSlot(Slots(n), k);
      } else {
        DepthSlot(Slots(n), k - |m.kind.kids| + |n.kind.kids|);
      }
    }
    DepthBound(Slots(m), DepthSeq(Slots(n)));
    SlotSizes(n);
    SlotSizes(m);
    SizeConcat(n.kind.kids, StateNodes(n.state));
    SizeConcat(m.kind.kids, StateNodes(m.state));
  }

  lemma {:induction false} PropShrinks(
    target: Id, path: string, update: (string, Fields) -> Result<Fields, Code>, root: Node)
    requires ApplyUpdateProp(target, path, update, root).Ok?
    ensures NoLarger(ApplyUpdateProp(target, path, update, root).value, root)
  {
    var p := FirstPath(target, root).value;
    var n := NodeAt(root, p);
    var m := n.(kind := n.kind.(fields := update(n.kind.tag, n.kind.fields).value));
    SameSlots(n, m);
    PutShrinks(root, p, m);
  }

  lemma {:induction false} BindingShrinks(target: Id, slot: string, binding: string, root: Node)
    requires ApplyBinding(target, slot, binding, root).Ok?
    ensures NoLarger(ApplyBinding(target, slot, binding, root).value, root)
  {
    var p := FirstPath(target, root).value;
    var n := NodeAt(root, p);
    var m := n.(kind := n.kind.(fields := n.kind.fields[BindingKey(n.kind.tag, slot).value := binding]));
    SameSlots(n, m);
    PutShrinks(root, p, m);
  }

  lemma {:induction false} LeafShrinks(op: Op, root: Node, result: Node)
    requires UniqueIds(root) && ApplyOne(op, root) == Ok(result)
    requires !OpCanGrow(op) && !op.Batch? && !op.EditNode? && !op.UpdateState?
    ensures NoLarger(result, root)
  {
    match op {
      case UpdateProp(target, path, update) => PropShrinks(target, path, update, root);
      case ReplaceBinding(target, slot, binding) => BindingShrinks(target, slot, binding, root);
      case UpdateStyle(target, style) => FacetShrinks(target, root, SetStyle(style));
      case PatchStyle(target, delta) => FacetShrinks(target, root, MergeStyle(delta));
      case UpdateAccessibility(target, access) => FacetShrinks(target, root, SetAccess(access));
      case UpdateTooltip(target, tooltip) => FacetShrinks(target, root, SetTooltip(tooltip));
      case RemoveNode(target) => RemoveShrinks(target, root);
      case ReorderChildren(parentId, newOrder) => ReorderShrinks(parentId, newOrder, root);
    }
  }

  // An op the guards do not charge installs nothing, in a batch or out of one.
  lemma {:induction false} UnchargedInstallsNothing(op: Op)
    requires !OpCanGrow(op)
    ensures InsertedNodes(op) == []
    decreases op
  {
    if op.Batch? {
      UnchargedSeq(op.ops);
    }
  }

  lemma {:induction false} UnchargedSeq(ops: seq<Op>)
    requires forall i | 0 <= i < |ops| :: !OpCanGrow(ops[i])
    ensures InsertedSeq(ops) == []
    decreases ops
  {
    if ops != [] {
      UnchargedInstallsNothing(ops[0]);
      UnchargedSeq(ops[1..]);
    }
  }

  lemma {:induction false} UnchargedShrinks(op: Op, root: Node, result: Node)
    requires UniqueIds(root) && ApplyOne(op, root) == Ok(result) && !OpCanGrow(op)
    ensures NoLarger(result, root)
    decreases op
  {
    if op.Batch? {
      UnchargedSeqShrinks(op.ops, 0, root, result);
    } else if op.EditNode? {
      BareShrinks(op.target, root, SetKind(op.newKind));
    } else if op.UpdateState? {
      BareShrinks(op.target, root, SetState(op.state));
    } else {
      LeafShrinks(op, root, result);
    }
  }

  lemma {:induction false} UnchargedSeqShrinks(ops: seq<Op>, done: nat, root: Node, result: Node)
    requires UniqueIds(root) && ApplySeq(ops, done, root) == Ok(result)
    requires forall i | 0 <= i < |ops| :: !OpCanGrow(ops[i])
    ensures NoLarger(result, root)
    decreases ops
  {
    if ops != [] {
      var next := ApplyOne(ops[0], root).value;
      UnchargedShrinks(ops[0], root, next);
      UnchargedInstallsNothing(ops[0]);
      UniqueKept(ops[0], root, next);
      UnchargedSeqShrinks(ops[1..], done + 1, next, result);
    }
  }

  // -- The law ---------------------------------------------------------------

  ghost predicate WellFormed(n: Node) {
    UniqueIds(n) && WithinLimits(n)
  }

  // Every accepted op keeps a well-formed tree well-formed.
  lemma {:induction false} ApplyKeepsWellFormed(op: Op, tree: Node)
    requires WellFormed(tree) && Apply(op, tree).Ok?
    ensures WellFormed(Apply(op, tree).value)
  {
    var result := Apply(op, tree).value;
    UniqueKept(op, tree, result);
    if !OpCanGrow(op) {
      UnchargedShrinks(op, tree, result);
    }
  }
}
