// Whether a helper's refusal names what the engine would have said about the op.
module PlacementCodes {
  import opened Wrappers
  import opened Tree
  import opened Ops
  import opened Placements
  import L = PlacementLaws
  import W = OpWrites
  import D = DiffRoundTrip

  // The documented counterpart of a refusal; the last three codes and an anchor have none.
  function Counterpart(code: PlaceCode): Option<Code> {
    match code
    case NoParent => Some(ParentNotFound)
    case Childless => Some(ChildlessKind)
    case NoNode => Some(NodeNotFound)
    case DuplicateId => Some(DuplicateNodeId)
    case MoveIntoSelf => Some(KindMismatch)
    case MoveIntoDescendant => Some(KindMismatch)
    case _ => None
  }

  // The node cannot be moved, and the engine finds something else wrong first: it asks about
  // the destination before it looks for the node's place in a child list.
  predicate EngineAsksFirst(root: Node, m: Id, dest: Id) {
    && !StructurallyPresent(m, root)
    && (m == dest || (FindNode(m, root).Some? && (IsAncestor(m, dest, root) || ContainerChildren(root, dest).Err?)))
  }

  // Moves to the end of a list: the helper and the engine refuse the same ones, and with
  // corresponding codes except exactly there.
  lemma {:induction false} MoveCodes(root: Node, m: Id, dest: Id)
    requires UniqueIds(root)
    ensures var helper, engine := CanPlace(root, m, Target(dest, Last)), ApplyMove(m, dest, root);
      && (helper.None? <==> engine.Ok?)
      && (helper.Some? ==>
            && Counterpart(helper.value).Some?
            && (engine == Fail(Counterpart(helper.value).value) <==> !EngineAsksFirst(root, m, dest))
            && (EngineAsksFirst(root, m, dest) ==> helper == Some(NoNode)))
  {
    L.CanPlaceLast(root, m, dest);
    if !StructurallyPresent(m, root) {
      AbsentCodes(root, m, dest);
    } else {
      PresentCodes(root, m, dest);
    }
  }

  // What the engine says of a node no child list holds.
  lemma {:induction false} AbsentCodes(root: Node, m: Id, dest: Id)
    requires !StructurallyPresent(m, root)
    ensures ApplyMove(m, dest, root) == Fail(NodeNotFound) <==> !EngineAsksFirst(root, m, dest)
  {
    assert ApplyRemove(m, root) == Fail(NodeNotFound);
  }

  // Of any other node both ask the same things in the same order.
  lemma {:induction false} PresentCodes(root: Node, m: Id, dest: Id)
    requires UniqueIds(root) && StructurallyPresent(m, root)
    ensures var helper, engine := CanPlace(root, m, Target(dest, Last)), ApplyMove(m, dest, root);
      helper.Some? ==> Counterpart(helper.value).Some? && engine == Fail(Counterpart(helper.value).value)
  {
    PresentFound(root, m);
    SameQuestions(root, m, dest);
    var refusal := MoveRefusal(m, dest, root);
    if refusal.Some? {
      assert ApplyMove(m, dest, root) == Fail(refusal.value);
    }
  }

  lemma {:induction false} SameQuestions(root: Node, m: Id, dest: Id)
    requires StructurallyPresent(m, root) && FirstPath(m, root).Some?
    ensures var helper := CanPlace(root, m, Target(dest, Last));
      MoveRefusal(m, dest, root) == if helper.None? then None else Counterpart(helper.value)
  {
    PlaceQuestions(root, m, dest);
    MoveQuestions(root, m, dest);
    ContainerCodes(root, dest);
    SameAnswers(
      CanPlace(root, m, Target(dest, Last)), MoveRefusal(m, dest, root), m == dest, IsAncestor(m, dest, root),
      ContainerRefusal(root, dest));
  }

  // The destination's own refusal.
  function ContainerRefusal(root: Node, dest: Id): Option<PlaceCode> {
    if ContainerChildren(root, dest).Ok? then None else Some(ContainerChildren(root, dest).error)
  }

  lemma {:induction false} SameAnswers(
    helper: Option<PlaceCode>, refusal: Option<Code>, self: bool, inside: bool, container: Option<PlaceCode>)
    requires helper == if self then Some(MoveIntoSelf) else if inside then Some(MoveIntoDescendant) else container
    requires container.Some? ==> Counterpart(container.value).Some?
    requires refusal ==
      if self || inside then Some(KindMismatch)
      else if container.None? then None else Counterpart(container.value)
    ensures refusal == if helper.None? then None else Counterpart(helper.value)
  {
  }

  lemma {:induction false} PlaceQuestions(root: Node, m: Id, dest: Id)
    requires StructurallyPresent(m, root)
    ensures CanPlace(root, m, Target(dest, Last)) ==
      if m == dest then Some(MoveIntoSelf)
      else if IsAncestor(m, dest, root) then Some(MoveIntoDescendant)
      else ContainerRefusal(root, dest)
  {
  }

  lemma {:induction false} MoveQuestions(root: Node, m: Id, dest: Id)
    requires FirstPath(m, root).Some?
    ensures MoveRefusal(m, dest, root) ==
      if m == dest || IsAncestor(m, dest, root) then Some(KindMismatch)
      else if ContainerRefusal(root, dest).None? then None
      else Counterpart(ContainerRefusal(root, dest).value)
  {
    ContainerCodes(root, dest);
  }

  lemma {:induction false} ContainerCodes(root: Node, dest: Id)
    ensures var children, at := ContainerChildren(root, dest), FirstPath(dest, root);
      && (children.Ok? <==> at.Some? && IsLayout(NodeAt(root, at.value)))
      && (children == Err(NoParent) <==> at.None?)
      && (children == Err(Childless) <==> at.Some? && !IsLayout(NodeAt(root, at.value)))
  {
  }

  lemma {:induction false} PresentFound(root: Node, m: Id)
    requires UniqueIds(root) && StructurallyPresent(m, root)
    ensures FirstPath(m, root).Some?
  {
    if root.id != m {
      var p, i := L.Seated(root, m);
    }
  }

  // Inserts at the end of a list: the same refusals, code by code.
  lemma {:induction false} PlaceCodes(root: Node, child: Node, dest: Id)
    ensures var helper, engine := PlaceOp(root, child, Target(dest, Last)), ApplyInsert(dest, child, root);
      && (helper.Ok? <==> engine.Ok?)
      && (helper.Err? ==>
            Counterpart(helper.error).Some? && engine == Fail(Counterpart(helper.error).value))
  {
  }

  // -- Every refusal, told of the tree ---------------------------------------

  // A placement no list can meet: an unknown kind, or an anchor that is the node itself or not
  // among its siblings.
  predicate Unplaceable(siblings: seq<Id>, x: Id, placement: Placement, code: PlaceCode) {
    match placement
    case Unrecognised => code == UnknownPlacement
    case Before(anchor) => code == UnknownAnchor && (anchor == x || anchor !in siblings)
    case After(anchor) => code == UnknownAnchor && (anchor == x || anchor !in siblings)
    case _ => false
  }

  // Why a destination, or a place in it, is refused.
  ghost predicate BadTarget(root: Node, x: Id, target: Target, code: PlaceCode) {
    if Occ(target.parentId, root) == 0 then code == NoParent
    else if !W.HasLayout(root, target.parentId) then code == Childless
    else Unplaceable(Ids(FindNode(target.parentId, root).value.kind.kids), x, target.placement, code)
  }

  ghost predicate MoveRefused(root: Node, m: Id, target: Target, code: PlaceCode) {
    if m != root.id && !W.Listed(root, m) then code == NoNode
    else if target.parentId == m then code == MoveIntoSelf
    else if Occ(m, root) > 0 && Occ(target.parentId, FindNode(m, root).value) > 0 then code == MoveIntoDescendant
    else BadTarget(root, m, target, code)
  }

  ghost predicate PlaceRefused(root: Node, child: Node, target: Target, code: PlaceCode) {
    if W.HasLayout(root, target.parentId) && W.Meet(child, root) then code == DuplicateId
    else BadTarget(root, child.id, target, code)
  }

  // A nudge is refused for the root, for a node no list holds, and past an end of its list.
  ghost predicate NudgeRefused(root: Node, x: Id, delta: int, code: PlaceCode) {
    if x == root.id then code == CannotNudgeRoot
    else if !W.Listed(root, x) then code == NoNode
    else code == NudgeOutOfRange && exists p, i :: PastEnd(root, x, delta, p, i)
  }

  ghost predicate PastEnd(root: Node, x: Id, delta: int, p: Path, i: int) {
    && ValidPath(root, p) && W.ListsChildren(NodeAt(root, p))
    && var kids := NodeAt(root, p).kind.kids;
       0 <= i < |kids| && kids[i].id == x && !(0 <= i + delta < |kids|)
  }

  lemma {:induction false} PlacementRefused(
    siblings: seq<Id>, x: Id, placement: Placement, code: PlaceCode)
    ensures Reposition(PostMoveMembership(siblings, x), x, placement) == Err(code) <==>
      Unplaceable(siblings, x, placement, code)
    ensures Reposition(siblings + [x], x, placement) == Err(code) <==> Unplaceable(siblings, x, placement, code)
  {
    L.RepositionMeans(PostMoveMembership(siblings, x), x, placement);
    L.RepositionMeans(siblings + [x], x, placement);
    if placement.Before? || placement.After? {
      L.OthersHas(siblings, x, placement.anchor);
    }
  }

  lemma {:induction false} ContainerRefused(root: Node, x: Id, target: Target, code: PlaceCode)
    ensures var children := ContainerChildren(root, target.parentId);
      BadTarget(root, x, target, code) <==>
        if children.Err? then code == children.error else Unplaceable(children.value, x, target.placement, code)
  {
  }

  // The move check refuses exactly so, with that code.
  lemma {:induction false} CanPlaceRefuses(root: Node, m: Id, target: Target, code: PlaceCode)
    requires UniqueIds(root)
    ensures CanPlace(root, m, target) == Some(code) <==> MoveRefused(root, m, target, code)
  {
    W.ListedIs(root, m);
    if StructurallyPresent(m, root) {
      PresentFound(root, m);
      if m != target.parentId {
        W.AncestorIs(m, target.parentId, root);
        AskedLast(root, m, target, code);
      }
    }
  }

  // Once the node may go below the destination, the destination and the place in it decide.
  lemma {:induction false} AskedLast(root: Node, m: Id, target: Target, code: PlaceCode)
    requires StructurallyPresent(m, root) && m != target.parentId
    ensures !IsAncestor(m, target.parentId, root) ==>
      (CanPlace(root, m, target) == Some(code) <==> BadTarget(root, m, target, code))
  {
    var children := ContainerChildren(root, target.parentId);
    ContainerRefused(root, m, target, code);
    if children.Ok? {
      PlacementRefused(children.value, m, target.placement, code);
    }
  }

  // So does the move helper, and a move it does not refuse it answers with an op.
  lemma {:induction false} MoveOpRefuses(root: Node, m: Id, target: Target, code: PlaceCode)
    requires UniqueIds(root)
    ensures MoveOp(root, m, target) == Err(code) <==> MoveRefused(root, m, target, code)
  {
    CanPlaceRefuses(root, m, target, code);
  }

  lemma {:induction false} PlaceOpRefuses(root: Node, child: Node, target: Target, code: PlaceCode)
    ensures PlaceOp(root, child, target) == Err(code) <==> PlaceRefused(root, child, target, code)
  {
    var children := ContainerChildren(root, target.parentId);
    W.SharesIs(child, root);
    ContainerRefused(root, child.id, target, code);
    if children.Ok? {
      PlacementRefused(children.value, child.id, target.placement, code);
    }
  }

  lemma {:induction false} NudgeOpRefuses(root: Node, x: Id, delta: int, code: PlaceCode)
    requires UniqueIds(root)
    ensures NudgeOp(root, x, delta) == Err(code) <==> NudgeRefused(root, x, delta, code)
  {
    W.ListedIs(root, x);
    if x != root.id && FirstParent(x, root).Some? {
      var p, i := L.Seated(root, x);
      L.LastOfKids(root, p, i);
      assert Ids(NodeAt(root, p).kind.kids)[i] == x;
      L.NudgeIs(root, x, delta, p, i);
      OnePlace(root, x, delta, p, i);
    }
  }

  lemma {:induction false} OnePlace(root: Node, x: Id, delta: int, p: Path, i: nat)
    requires UniqueIds(root) && ValidPath(root, p) && IsLayout(NodeAt(root, p))
    requires i < |NodeAt(root, p).kind.kids| && NodeAt(root, p).kind.kids[i].id == x
    ensures (exists q, j :: PastEnd(root, x, delta, q, j)) <==> !(0 <= i + delta < |NodeAt(root, p).kind.kids|)
  {
    if q: Path, j :| PastEnd(root, x, delta, q, j) {
      D.KidPath(root, p, i);
      D.KidPath(root, q, j);
      UniquePath(root, p + [i], q + [j]);
      L.SamePrefix(p, i, q, j);
      assert (p + [i])[|p|] == (q + [j])[|q|];
    }
    if !(0 <= i + delta < |NodeAt(root, p).kind.kids|) {
      assert PastEnd(root, x, delta, p, i);
    }
  }
}
