// The tree-op apply engine: one op folded over a tree, answering with the new
// tree or a typed refusal, and the guards Apply adds on top of the reducer.
module Ops {
  import opened Wrappers
  import opened Tree
  import PropPath

  const MAX_NODE_DEPTH: nat := 24
  const MAX_NODES: nat := 100000

  datatype Code =
    | NodeNotFound | ParentNotFound | ChildlessKind | PositionOutOfRange | DuplicateNodeId
    | FieldNotFound | SlotNotFound | KindMismatch | PathInvalid | PathNotSupportedYet
    | OrderingMismatch | BatchAborted | LimitExceeded

  datatype ApplyError = ApplyError(code: Code, batchIndex: Option<nat>)

  type Outcome = Result<Node, ApplyError>

  // The fourteen op kinds. UpdateProp carries the per-kind coercion of its value as a
  // function on the kind's own content, which the kind's child positions are not
  // part of.
  datatype Op =
    | EditNode(target: Id, newKind: Kind)
    | UpdateProp(target: Id, path: string, update: (string, Fields) -> Result<Fields, Code>)
    | ReplaceBinding(target: Id, slot: string, binding: string)
    | UpdateStyle(target: Id, style: Style)
    | PatchStyle(target: Id, style: Style)
    | UpdateState(target: Id, state: State)
    | UpdateAccessibility(target: Id, access: Fields)
    | UpdateTooltip(target: Id, tooltip: Option<string>)
    | InsertChild(parentId: Id, child: Node)
    | RemoveNode(target: Id)
    | MoveNode(target: Id, newParentId: Id)
    | ReorderChildren(parentId: Id, newOrder: seq<Id>)
    | ReplaceRoot(node: Node)
    | Batch(ops: seq<Op>)

  function Fail(code: Code): Outcome {
    Err(ApplyError(code, None))
  }

  // -- Facet stores ----------------------------------------------------------

  // The token a member has when a record omits it.
  function IdentityOf(m: Member): string {
    match m
    case Direction => "auto"
    case Emphasis => "Normal"
    case Role => "None"
    case Tone => "Default"
    case Voice => "Default"
    case Weight => "Standard"
  }

  // The members of a record that are off their identity.
  function KeptBy(identity: Member -> string, members: Style): Style {
    map k | k in members && members[k] != identity(k) :: members[k]
  }

  function Kept(members: Style): Style {
    KeptBy(IdentityOf, members)
  }

  function StoreStyle(n: Node, members: Style): Node {
    n.(style := if Kept(members) == map[] then None else Some(Kept(members)))
  }

  function StyleMembers(n: Node): Style {
    match n.style case None => map[] case Some(m) => m
  }

  function StoreAccess(n: Node, access: Fields): Node {
    n.(access := if access == map[] then None else Some(access))
  }

  function BindingKey(tag: string, slot: string): Option<string> {
    match (tag, slot)
    case ("Metric", "Value") => Some("value")
    case ("Metric", "Source") => Some("value")
    case ("Metric", "Trend") => Some("trend")
    case ("Sparkline", "Source") => Some("source")
    case ("Progress", "Fraction") => Some("fraction")
    case ("LabelValueRow", "Value") => Some("value")
    case ("LabelValueRow", "Source") => Some("value")
    case ("Stepper", "ActiveStep") => Some("activeStep")
    case ("Button", "Disabled") => Some("disabled")
    case ("Select", "Disabled") => Some("disabled")
    case ("Form", "Disabled") => Some("disabled")
    case ("FileUpload", "Disabled") => Some("disabled")
    case ("DataGrid", "Source") => Some("source")
    case ("Chart", "Source") => Some("source")
    case ("Map", "Source") => Some("source")
    case _ => None
  }

  // -- Child lists -----------------------------------------------------------

  function Without(s: seq<Node>, x: Id): (r: seq<Node>)
    ensures x !in Ids(r)
    ensures forall c | c in r :: c in s
  {
    if s == [] then []
    else if s[0].id == x then Without(s[1..], x)
    else [s[0]] + Without(s[1..], x)
  }

  function LastWithId(s: seq<Node>, x: Id): (r: Node)
    requires x in Ids(s)
    ensures r in s && r.id == x
  {
    var i := |s| - 1;
    assert s == s[..i] + [s[i]];
    if s[i].id == x then s[i]
    else
      assert x in Ids(s[..i]) by {
        var k :| 0 <= k < |s| && Ids(s)[k] == x;
        assert Ids(s[..i])[k] == x;
      }
      LastWithId(s[..i], x)
  }

  predicate SameIdMultiset(kids: seq<Node>, order: seq<Id>) {
    multiset(Ids(kids)) == multiset(order)
  }

  function Reordered(kids: seq<Node>, order: seq<Id>): (r: seq<Node>)
    requires SameIdMultiset(kids, order)
    ensures |r| == |order| && Ids(r) == order
    ensures forall c | c in r :: c in kids
  {
    assert forall i | 0 <= i < |order| :: order[i] in Ids(kids) by {
      forall i | 0 <= i < |order| ensures order[i] in Ids(kids) {
        assert order[i] in multiset(order);
      }
    }
    seq(|order|, i requires 0 <= i < |order| => LastWithId(kids, order[i]))
  }

  // -- The reducer -----------------------------------------------------------

  function ApplyRemove(target: Id, root: Node): Outcome {
    if root.id == target then Fail(KindMismatch) else
    match FirstParent(target, root)
    case None => Fail(NodeNotFound)
    case Some(q) =>
      var parent := NodeAt(root, q);
      PathOcc(root, q);
      var p := FirstPath(parent.id, root).value;
      Ok(Put(root, p, WithKids(NodeAt(root, p), Without(parent.kind.kids, target))))
  }

  predicate SharesId(a: Node, b: Node) {
    exists x | x in AllIds(a) :: x in AllIds(b)
  }

  function ApplyInsert(parentId: Id, child: Node, root: Node): Outcome {
    match FirstPath(parentId, root)
    case None => Fail(ParentNotFound)
    case Some(p) =>
      var parent := NodeAt(root, p);
      if !IsLayout(parent) then Fail(ChildlessKind)
      else if SharesId(child, root) then Fail(DuplicateNodeId)
      else Ok(Put(root, p, WithKids(parent, parent.kind.kids + [child])))
  }

  // What stops a move before any node is touched.
  function MoveRefusal(target: Id, newParentId: Id, root: Node): (r: Option<Code>)
    ensures r.None? ==> FirstPath(target, root).Some?
  {
    if target == newParentId then Some(KindMismatch)
    else if IsAncestor(target, newParentId, root) then Some(KindMismatch)
    else if FirstPath(target, root).None? then Some(NodeNotFound)
    else
      match FirstPath(newParentId, root)
      case None => Some(ParentNotFound)
      case Some(q) => if IsLayout(NodeAt(root, q)) then None else Some(ChildlessKind)
  }

  function ApplyMove(target: Id, newParentId: Id, root: Node): Outcome {
    match MoveRefusal(target, newParentId, root)
    case Some(code) => Fail(code)
    case None =>
      match ApplyRemove(target, root)
      case Err(e) => Err(e)
      case Ok(removed) =>
        ApplyInsert(newParentId, NodeAt(root, FirstPath(target, root).value), removed)
  }

  function ApplyReorder(parentId: Id, newOrder: seq<Id>, root: Node): Outcome {
    match FirstPath(parentId, root)
    case None => Fail(ParentNotFound)
    case Some(p) =>
      var parent := NodeAt(root, p);
      if !IsLayout(parent) then Fail(ChildlessKind)
      else if !SameIdMultiset(parent.kind.kids, newOrder) then Fail(OrderingMismatch)
      else Ok(Put(root, p, WithKids(parent, Reordered(parent.kind.kids, newOrder))))
  }

  function ApplyUpdateProp(
    target: Id, path: string, update: (string, Fields) -> Result<Fields, Code>, root: Node): Outcome
  {
    if !PropPath.ParsesPath(path) then Fail(PathInvalid) else
    match FirstPath(target, root)
    case None => Fail(NodeNotFound)
    case Some(p) =>
      var n := NodeAt(root, p);
      match update(n.kind.tag, n.kind.fields)
      case Err(code) => Fail(code)
      case Ok(fields) => Ok(Put(root, p, n.(kind := n.kind.(fields := fields))))
  }

  function ApplyBinding(target: Id, slot: string, binding: string, root: Node): Outcome {
    match FirstPath(target, root)
    case None => Fail(NodeNotFound)
    case Some(p) =>
      var n := NodeAt(root, p);
      match BindingKey(n.kind.tag, slot)
      case None => Fail(SlotNotFound)
      case Some(key) => Ok(Put(root, p, n.(kind := n.kind.(fields := n.kind.fields[key := binding]))))
  }

  // Rewrite the first node holding the id, by a rewrite that keeps its id.
  function ApplyAt(target: Id, root: Node, rewrite: Node -> Node): Outcome {
    match FirstPath(target, root)
    case None => Fail(NodeNotFound)
    case Some(p) => Ok(Put(root, p, rewrite(NodeAt(root, p))))
  }

  function ApplyOne(op: Op, root: Node): Outcome
    decreases op
  {
    match op
    case EditNode(target, newKind) => ApplyAt(target, root, SetKind(newKind))
    case UpdateProp(target, path, update) => ApplyUpdateProp(target, path, update, root)
    case ReplaceBinding(target, slot, binding) => ApplyBinding(target, slot, binding, root)
    case UpdateStyle(target, style) => ApplyAt(target, root, SetStyle(style))
    case PatchStyle(target, delta) => ApplyAt(target, root, MergeStyle(delta))
    case UpdateState(target, state) =>
      if state.NoState? then Fail(KindMismatch) else ApplyAt(target, root, SetState(state))
    case UpdateAccessibility(target, access) => ApplyAt(target, root, SetAccess(access))
    case UpdateTooltip(target, tooltip) => ApplyAt(target, root, SetTooltip(tooltip))
    case InsertChild(parentId, child) => ApplyInsert(parentId, child, root)
    case RemoveNode(target) => ApplyRemove(target, root)
    case MoveNode(target, newParentId) => ApplyMove(target, newParentId, root)
    case ReorderChildren(parentId, newOrder) => ApplyReorder(parentId, newOrder, root)
    case ReplaceRoot(node) => Ok(node)
    case Batch(ops) => ApplySeq(ops, 0, root)
  }

  function SetKind(kind: Kind): Node -> Node { (n: Node) => n.(kind := kind) }
  function SetStyle(style: Style): Node -> Node { (n: Node) => StoreStyle(n, style) }
  function MergeStyle(delta: Style): Node -> Node { (n: Node) => StoreStyle(n, StyleMembers(n) + delta) }
  function SetState(state: State): Node -> Node { (n: Node) => n.(state := state) }
  function SetAccess(access: Fields): Node -> Node { (n: Node) => StoreAccess(n, access) }
  function SetTooltip(tooltip: Option<string>): Node -> Node { (n: Node) => n.(tooltip := tooltip) }

  // The members of a batch in order; `done` members came before these.
  function ApplySeq(ops: seq<Op>, done: nat, state: Node): Outcome
    decreases ops
  {
    if ops == [] then Ok(state) else
    match ApplyOne(ops[0], state)
    case Err(_) => Err(ApplyError(BatchAborted, Some(done)))
    case Ok(next) => ApplySeq(ops[1..], done + 1, next)
  }

  // -- The guards ------------------------------------------------------------

  // The subtree roots an op puts into the tree.
  function InsertedNodes(op: Op): seq<Node>
    decreases op
  {
    match op
    case InsertChild(_, child) => [child]
    case ReplaceRoot(node) => [node]
    case EditNode(_, kind) => kind.kids
    case UpdateState(_, state) => StateNodes(state)
    case Batch(ops) => InsertedSeq(ops)
    case _ => []
  }

  function InsertedSeq(ops: seq<Op>): seq<Node>
    decreases ops
  {
    if ops == [] then [] else InsertedNodes(ops[0]) + InsertedSeq(ops[1..])
  }

  predicate OpCanGrow(op: Op)
    decreases op
  {
    match op
    case MoveNode(_, _) => true
    case Batch(ops) => exists i | 0 <= i < |ops| :: OpCanGrow(ops[i])
    case _ => InsertedNodes(op) != []
  }

  predicate WithinLimits(n: Node) {
    Depth(n) <= MAX_NODE_DEPTH && Size(n) <= MAX_NODES
  }

  // An id the op installed is held by more than one node of the result.
  predicate InstallsDuplicate(installed: seq<Node>, result: Node) {
    exists i, id | 0 <= i < |installed| && id in AllIds(installed[i]) :: Occ(id, result) > 1
  }

  function Apply(op: Op, tree: Node): Outcome {
    match ApplyOne(op, tree)
    case Err(e) => Err(e)
    case Ok(result) =>
      if OpCanGrow(op) && !WithinLimits(result) then Fail(LimitExceeded)
      else if InstallsDuplicate(InsertedNodes(op), result) then Fail(DuplicateNodeId)
      else Ok(result)
  }

  predicate CanApply(op: Op, tree: Node) {
    ApplyOne(op, tree).Ok?
  }

  // Ops applied one after another, each under the guards.
  function ApplyScript(ops: seq<Op>, tree: Node): Outcome {
    if ops == [] then Ok(tree) else
    match Apply(ops[0], tree)
    case Err(e) => Err(e)
    case Ok(next) => ApplyScript(ops[1..], next)
  }
}
