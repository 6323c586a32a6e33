// Placed insert, move and nudge. The op vocabulary is positionless, so a placement is
// an append followed, when that does not already give the wanted order, by a reorder
// naming every sibling.
module Placements {
  import opened Wrappers
  import opened Tree
  import opened Ops

  // Unrecognised stands for a placement kind outside the vocabulary.
  datatype Placement = Last | First | Before(anchor: Id) | After(anchor: Id) | Unrecognised

  datatype Target = Target(parentId: Id, placement: Placement)

  datatype PlaceCode =
    | NoParent | Childless | NoNode | UnknownAnchor | DuplicateId | MoveIntoSelf
    | MoveIntoDescendant | CannotNudgeRoot | NudgeOutOfRange | UnknownPlacement

  function ContainerChildren(root: Node, parentId: Id): Result<seq<Id>, PlaceCode> {
    match FindNode(parentId, root)
    case None => Err(NoParent)
    case Some(parent) => if IsLayout(parent) then Ok(Ids(parent.kind.kids)) else Err(Childless)
  }

  function Others(order: seq<Id>, x: Id): seq<Id> {
    if order == [] then []
    else (if order[0] == x then [] else [order[0]]) + Others(order[1..], x)
  }

  function IndexOf(order: seq<Id>, x: Id): (r: Option<nat>)
    ensures r.Some? <==> x in order
    ensures r.Some? ==> r.value < |order| && order[r.value] == x && x !in order[..r.value]
  {
    if order == [] then None
    else if order[0] == x then Some(0)
    else
      match IndexOf(order[1..], x)
      case None => None
      case Some(i) => assert order[..i + 1] == [order[0]] + order[1..][..i]; Some(i + 1)
  }

  // `moved` placed among the rest of the order.
  function Reposition(order: seq<Id>, moved: Id, placement: Placement): Result<seq<Id>, PlaceCode> {
    PlacedAs(Others(order, moved), moved, placement)
  }

  function PlacedAs(rest: seq<Id>, moved: Id, placement: Placement): Result<seq<Id>, PlaceCode> {
    match placement
    case Last => Ok(rest + [moved])
    case First => Ok([moved] + rest)
    case Before(anchor) => Anchored(rest, moved, anchor, 0)
    case After(anchor) => Anchored(rest, moved, anchor, 1)
    case Unrecognised => Err(UnknownPlacement)
  }

  function Anchored(rest: seq<Id>, moved: Id, anchor: Id, offset: nat): Result<seq<Id>, PlaceCode>
    requires offset <= 1
  {
    match IndexOf(rest, anchor)
    case None => Err(UnknownAnchor)
    case Some(i) => Ok(rest[..i + offset] + [moved] + rest[i + offset..])
  }

  predicate StructurallyPresent(x: Id, root: Node) {
    root.id == x || FirstParent(x, root).Some?
  }

  function PostMoveMembership(siblings: seq<Id>, moved: Id): seq<Id> {
    Others(siblings, moved) + [moved]
  }

  function CanPlace(root: Node, moved: Id, target: Target): Option<PlaceCode> {
    if !StructurallyPresent(moved, root) then Some(NoNode)
    else if target.parentId == moved then Some(MoveIntoSelf)
    else if IsAncestor(moved, target.parentId, root) then Some(MoveIntoDescendant)
    else
      match ContainerChildren(root, target.parentId)
      case Err(code) => Some(code)
      case Ok(siblings) =>
        match Reposition(PostMoveMembership(siblings, moved), moved, target.placement)
        case Err(code) => Some(code)
        case Ok(_) => None
  }

  // The op, alone or followed by the reorder that states the wanted order.
  function Ordered(op: Op, parentId: Id, appended: seq<Id>, wanted: seq<Id>): Op {
    if wanted == appended then op else Batch([op, ReorderChildren(parentId, wanted)])
  }

  function PlaceOp(root: Node, child: Node, target: Target): Result<Op, PlaceCode> {
    match ContainerChildren(root, target.parentId)
    case Err(code) => Err(code)
    case Ok(siblings) =>
      if SharesId(child, root) then Err(DuplicateId) else
      match Reposition(siblings + [child.id], child.id, target.placement)
      case Err(code) => Err(code)
      case Ok(wanted) =>
        Ok(Ordered(InsertChild(target.parentId, child), target.parentId, siblings + [child.id], wanted))
  }

  function MoveOp(root: Node, moved: Id, target: Target): Result<Op, PlaceCode> {
    match CanPlace(root, moved, target)
    case Some(code) => Err(code)
    case None =>
      var appended := PostMoveMembership(ContainerChildren(root, target.parentId).value, moved);
      var wanted := Reposition(appended, moved, target.placement).value;
      Ok(Ordered(MoveNode(moved, target.parentId), target.parentId, appended, wanted))
  }

  function LastIndexOf(order: seq<Id>, x: Id): (r: nat)
    requires x in order
    ensures r < |order| && order[r] == x
  {
    if order[|order| - 1] == x then |order| - 1 else LastIndexOf(order[..|order| - 1], x)
  }

  // The node swapped with the sibling `delta` places away.
  function NudgeOp(root: Node, x: Id, delta: int): Result<Op, PlaceCode> {
    if root.id == x then Err(CannotNudgeRoot) else
    match FirstParent(x, root)
    case None => Err(NoNode)
    case Some(p) =>
      var parent := NodeAt(root, p);
      var ids := Ids(parent.kind.kids);
      var index := LastIndexOf(ids, x);
      var swapWith := index + delta;
      if swapWith < 0 || swapWith >= |ids| then Err(NudgeOutOfRange)
      else Ok(ReorderChildren(parent.id, ids[index := ids[swapWith]][swapWith := ids[index]]))
  }
}
