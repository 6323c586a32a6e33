// What each op leaves in the tree and when it is refused, told without the reducer's arms.
module OpWrites {
  import opened Wrappers
  import opened Tree
  import opened Table
  import opened Ops
  import opened ApplySafety
  import D = DiffRoundTrip
  import L = PlacementLaws
  import V = ApplyVerdict
  import P = PropPath
  import opened Turns

  // -- One node rewritten ----------------------------------------------------

  // The node found under the id is now `m`, and the table of the tree changed by that node's
  // part alone.
  ghost predicate Rewritten(tree: Node, r: Node, x: Id, m: Node) {
    && m.id == x && r.id == tree.id
    && FindNode(x, tree).Some? && FindNode(x, r) == Some(m)
    && forall y :: Rows(y, r) + Rows(y, FindNode(x, tree).value) == Rows(y, tree) + Rows(y, m)
  }

  // That leaves one tree, when it repeats no id.
  lemma {:induction false} OneRewrite(tree: Node, r: Node, r': Node, x: Id, m: Node)
    requires Rewritten(tree, r, x, m) && Rewritten(tree, r', x, m) && UniqueIds(r)
    ensures r == r'
  {
    forall y ensures Rows(y, r) == Rows(y, r') {
      var gone := Rows(y, FindNode(x, tree).value);
      assert (Rows(y, r) + gone) - gone == Rows(y, r);
      assert (Rows(y, r') + gone) - gone == Rows(y, r');
    }
    TableIsTree(r, r');
  }

  lemma {:induction false} HolderKept(x: Id, s: seq<Node>, i: nat, c: Node)
    requires FirstHolder(x, s) == Some(i) && Occ(x, c) >= 1
    ensures i < |s| && FirstHolder(x, s[i := c]) == Some(i)
  {
    var r := s[i := c];
    OccMember(x, r, i);
  }

  lemma {:induction false} FoundIn(x: Id, n: Node, i: nat)
    requires n.id != x && FirstHolder(x, Slots(n)) == Some(i)
    ensures i < |Slots(n)| && FirstPath(x, Slots(n)[i]).Some?
    ensures FirstPath(x, n) == Some([i] + FirstPath(x, Slots(n)[i]).value)
  {
    SlotSizes(n);
  }

  lemma {:induction false} FoundAgain(x: Id, n: Node, p: Path, m: Node)
    requires FirstPath(x, n) == Some(p) && m.id == x
    ensures FirstPath(x, Put(n, p, m)) == Some(p)
    decreases |p|
  {
    if n.id == x {
      assert p == [];
    } else {
      var i := FirstHolder(x, Slots(n)).value;
      FoundIn(x, n, i);
      var q := FirstPath(x, Slots(n)[i]).value;
      assert p == [i] + q && p[1..] == q;
      FoundAgain(x, Slots(n)[i], q, m);
      var r := Put(n, p, m);
      HolderKept(x, Slots(n), i, Put(Slots(n)[i], q, m));
      FoundIn(x, r, i);
    }
  }

  lemma {:induction false} PutRewrites(tree: Node, x: Id, m: Node)
    requires FirstPath(x, tree).Some? && m.id == x
    ensures Rewritten(tree, Put(tree, FirstPath(x, tree).value, m), x, m)
  {
    var p := FirstPath(x, tree).value;
    FoundAgain(x, tree, p, m);
    PutAt(tree, p, m);
    forall y ensures Rows(y, Put(tree, p, m)) + Rows(y, NodeAt(tree, p)) == Rows(y, tree) + Rows(y, m) {
      RowsPut(y, tree, p, m);
    }
  }

  // A node that keeps its own sub-nodes keeps every other row.
  lemma {:induction false} OtherRowsKept(tree: Node, r: Node, x: Id, m: Node)
    requires Rewritten(tree, r, x, m) && Slots(m) == Slots(FindNode(x, tree).value)
    ensures forall y | y != x :: Rows(y, r) == Rows(y, tree)
  {
    var n := FindNode(x, tree).value;
    forall y | y != x ensures Rows(y, r) == Rows(y, tree) {
      assert Rows(y, n) == Rows(y, m);
      assert (Rows(y, r) + Rows(y, n)) - Rows(y, n) == Rows(y, r);
      assert (Rows(y, tree) + Rows(y, m)) - Rows(y, m) == Rows(y, tree);
    }
  }

  // -- What an accepted op leaves --------------------------------------------

  // The content key of a binding slot, read from the key's side.
  predicate BoundUnder(tag: string, slot: string, key: string) {
    match key
    case "value" => tag in {"LabelValueRow", "Metric"} && slot in {"Source", "Value"}
    case "trend" => tag == "Metric" && slot == "Trend"
    case "source" => tag in {"Chart", "DataGrid", "Map", "Sparkline"} && slot == "Source"
    case "fraction" => tag == "Progress" && slot == "Fraction"
    case "activeStep" => tag == "Stepper" && slot == "ActiveStep"
    case "disabled" => tag in {"Button", "FileUpload", "Form", "Select"} && slot == "Disabled"
    case _ => false
  }

  lemma {:induction false} BindingKeyIs(tag: string, slot: string, key: string)
    ensures BindingKey(tag, slot) == Some(key) <==> BoundUnder(tag, slot, key)
  {
  }

  // A style member, at its default when the record omits it or there is none.
  function Reads(style: Option<Style>, m: Member): string {
    if style.Some? && m in style.value then style.value[m] else
    match m
    case Direction => "auto"
    case Emphasis => "Normal"
    case Role => "None"
    case Tone => "Default"
    case Voice => "Default"
    case Weight => "Standard"
  }

  // No empty record, and no member stored at its default.
  predicate Sparse(style: Option<Style>) {
    style.Some? ==> style.value != map[] && forall m | m in style.value :: style.value[m] != Reads(None, m)
  }

  // The stored style reads as a record laid over another.
  ghost predicate Overlaid(style: Option<Style>, over: Style, under: Option<Style>) {
    Sparse(style) && forall m: Member :: Reads(style, m) == if m in over then over[m] else Reads(under, m)
  }

  // The kinds with an ordered list of children.
  predicate ListsChildren(n: Node) {
    n.kind.tag in {"Box", "Disclosure", "Modal", "ScrollArea", "SplitPanel", "Stepper", "SummaryList", "Tabs"}
  }

  ghost predicate Appends(tree: Node, r: Node, x: Id, child: Node) {
    && FindNode(x, tree).Some? && ListsChildren(FindNode(x, tree).value)
    && var n := FindNode(x, tree).value;
       Rewritten(tree, r, x, n.(kind := n.kind.(kids := n.kind.kids + [child])))
  }

  // The layout node that lists the id lists it no longer.
  ghost predicate TakesOut(tree: Node, r: Node, x: Id) {
    exists parent, i :: TakesOutAt(tree, r, x, parent, i)
  }

  ghost predicate TakesOutAt(tree: Node, r: Node, x: Id, parent: Node, i: int) {
    && FindNode(parent.id, tree) == Some(parent) && ListsChildren(parent)
    && 0 <= i < |parent.kind.kids| && parent.kind.kids[i].id == x
    && Rewritten(
      tree, r, parent.id, parent.(kind := parent.kind.(kids := parent.kind.kids[..i] + parent.kind.kids[i + 1..])))
  }

  ghost predicate Relists(tree: Node, r: Node, x: Id, order: seq<Id>) {
    exists kids :: RelistsAs(tree, r, x, order, kids)
  }

  ghost predicate RelistsAs(tree: Node, r: Node, x: Id, order: seq<Id>, kids: seq<Node>) {
    && FindNode(x, tree).Some? && ListsChildren(FindNode(x, tree).value)
    && var n := FindNode(x, tree).value;
       && Ids(kids) == order && multiset(kids) == multiset(n.kind.kids)
       && Rewritten(tree, r, x, n.(kind := n.kind.(kids := kids)))
  }

  ghost predicate Restyles(tree: Node, r: Node, x: Id, over: Style, whole: bool) {
    exists style :: RestylesAs(tree, r, x, over, whole, style)
  }

  ghost predicate RestylesAs(tree: Node, r: Node, x: Id, over: Style, whole: bool, style: Option<Style>) {
    && FindNode(x, tree).Some?
    && var n := FindNode(x, tree).value;
       Overlaid(style, over, if whole then None else n.style) && Rewritten(tree, r, x, n.(style := style))
  }

  ghost predicate Rebinds(tree: Node, r: Node, x: Id, slot: string, binding: string) {
    exists key :: RebindsUnder(tree, r, x, slot, binding, key)
  }

  ghost predicate RebindsUnder(tree: Node, r: Node, x: Id, slot: string, binding: string, key: string) {
    && FindNode(x, tree).Some?
    && var n := FindNode(x, tree).value;
       && BoundUnder(n.kind.tag, slot, key)
       && Rewritten(tree, r, x, n.(kind := n.kind.(fields := n.kind.fields[key := binding])))
  }

  // What the op leaves of the tree.
  ghost predicate Leaves(op: Op, tree: Node, r: Node) {
    match op
    case EditNode(x, kind) =>
      FindNode(x, tree).Some? && Rewritten(tree, r, x, FindNode(x, tree).value.(kind := kind))
    case UpdateProp(x, path, update) =>
      && P.ParsesPath(path) && FindNode(x, tree).Some?
      && var n := FindNode(x, tree).value;
         && update(n.kind.tag, n.kind.fields).Ok?
         && Rewritten(tree, r, x, n.(kind := n.kind.(fields := update(n.kind.tag, n.kind.fields).value)))
    case ReplaceBinding(x, slot, binding) => Rebinds(tree, r, x, slot, binding)
    case UpdateStyle(x, style) => Restyles(tree, r, x, style, true)
    case PatchStyle(x, delta) => Restyles(tree, r, x, delta, false)
    case UpdateState(x, state) =>
      state.State? && FindNode(x, tree).Some? && Rewritten(tree, r, x, FindNode(x, tree).value.(state := state))
    case UpdateAccessibility(x, access) =>
      && FindNode(x, tree).Some?
      && Rewritten(
        tree, r, x, FindNode(x, tree).value.(access := if |access.Keys| == 0 then None else Some(access)))
    case UpdateTooltip(x, tooltip) =>
      FindNode(x, tree).Some? && Rewritten(tree, r, x, FindNode(x, tree).value.(tooltip := tooltip))
    case InsertChild(x, child) => Appends(tree, r, x, child)
    case RemoveNode(x) => TakesOut(tree, r, x)
    case MoveNode(x, to) =>
      && FindNode(x, tree).Some?
      && exists mid :: TakesOut(tree, mid, x) && Appends(mid, r, to, FindNode(x, tree).value)
    case ReorderChildren(x, order) => Relists(tree, r, x, order)
    case ReplaceRoot(node) => r == node
    case Batch(ops) => GoesThrough(ApplyOne, ops, tree, r)
  }

  lemma {:induction false} AtRewrites(target: Id, tree: Node, rewrite: Node -> Node)
    requires ApplyAt(target, tree, rewrite).Ok? && forall n :: rewrite(n).id == n.id
    ensures FindNode(target, tree).Some?
    ensures Rewritten(tree, ApplyAt(target, tree, rewrite).value, target, rewrite(FindNode(target, tree).value))
  {
    PutRewrites(tree, target, rewrite(FindNode(target, tree).value));
  }

  lemma {:induction false} KeptReads(members: Style, m: Member)
    ensures var style := if Kept(members) == map[] then None else Some(Kept(members));
      Sparse(style) && Reads(style, m) == if m in members then members[m] else Reads(None, m)
  {
    assert forall k: Member :: IdentityOf(k) == Reads(None, k);
    assert Kept(members) == map[] ==> m !in Kept(members);
  }

  lemma {:induction false} StyleLeaves(tree: Node, x: Id, style: Style)
    requires ApplyAt(x, tree, SetStyle(style)).Ok?
    ensures Restyles(tree, ApplyAt(x, tree, SetStyle(style)).value, x, style, true)
  {
    AtRewrites(x, tree, SetStyle(style));
    var stored := if Kept(style) == map[] then None else Some(Kept(style));
    forall m: Member
      ensures Sparse(stored) && Reads(stored, m) == if m in style then style[m] else Reads(None, m)
    {
      KeptReads(style, m);
    }
    assert Sparse(stored) by { KeptReads(style, Tone); }
    assert RestylesAs(tree, ApplyAt(x, tree, SetStyle(style)).value, x, style, true, stored);
  }

  lemma {:induction false} PatchLeaves(tree: Node, x: Id, delta: Style)
    requires ApplyAt(x, tree, MergeStyle(delta)).Ok?
    ensures Restyles(tree, ApplyAt(x, tree, MergeStyle(delta)).value, x, delta, false)
  {
    AtRewrites(x, tree, MergeStyle(delta));
    var n := FindNode(x, tree).value;
    var members := StyleMembers(n) + delta;
    var stored := if Kept(members) == map[] then None else Some(Kept(members));
    forall m: Member
      ensures Reads(stored, m) == if m in delta then delta[m] else Reads(n.style, m)
    {
      KeptReads(members, m);
    }
    assert Sparse(stored) by { KeptReads(members, Tone); }
    assert RestylesAs(tree, ApplyAt(x, tree, MergeStyle(delta)).value, x, delta, false, stored);
  }

  lemma {:induction false} PropLeaves(
    tree: Node, x: Id, path: string, update: (string, Fields) -> Result<Fields, Code>)
    requires ApplyUpdateProp(x, path, update, tree).Ok?
    ensures Leaves(UpdateProp(x, path, update), tree, ApplyUpdateProp(x, path, update, tree).value)
  {
    var n := FindNode(x, tree).value;
    PutRewrites(tree, x, n.(kind := n.kind.(fields := update(n.kind.tag, n.kind.fields).value)));
  }

  lemma {:induction false} BindingLeaves(tree: Node, x: Id, slot: string, binding: string)
    requires ApplyBinding(x, slot, binding, tree).Ok?
    ensures Rebinds(tree, ApplyBinding(x, slot, binding, tree).value, x, slot, binding)
  {
    var n := FindNode(x, tree).value;
    var key := BindingKey(n.kind.tag, slot).value;
    BindingKeyIs(n.kind.tag, slot, key);
    PutRewrites(tree, x, n.(kind := n.kind.(fields := n.kind.fields[key := binding])));
    assert RebindsUnder(tree, ApplyBinding(x, slot, binding, tree).value, x, slot, binding, key);
  }

  lemma {:induction false} InsertLeaves(tree: Node, x: Id, child: Node)
    requires ApplyInsert(x, child, tree).Ok?
    ensures Appends(tree, ApplyInsert(x, child, tree).value, x, child)
  {
    var n := FindNode(x, tree).value;
    PutRewrites(tree, x, n.(kind := n.kind.(kids := n.kind.kids + [child])));
  }

  lemma {:induction false} RemoveLeaves(tree: Node, x: Id)
    requires UniqueIds(tree) && ApplyRemove(x, tree).Ok?
    ensures TakesOut(tree, ApplyRemove(x, tree).value, x)
  {
    var p, i := L.Seated(tree, x);
    var parent := NodeAt(tree, p);
    var r := L.RemoveRows(tree, p, i);
    D.PathOfId(tree, p);
    PutRewrites(
      tree, parent.id, parent.(kind := parent.kind.(kids := parent.kind.kids[..i] + parent.kind.kids[i + 1..])));
    assert TakesOutAt(tree, r, x, parent, i);
  }

  lemma {:induction false} MoveLeaves(op: Op, tree: Node)
    requires UniqueIds(tree) && op.MoveNode? && ApplyMove(op.target, op.newParentId, tree).Ok?
    ensures Leaves(op, tree, ApplyMove(op.target, op.newParentId, tree).value)
  {
    var mid, moving := ApplyRemove(op.target, tree).value, FindNode(op.target, tree).value;
    RemoveLeaves(tree, op.target);
    InsertLeaves(mid, op.newParentId, moving);
  }

  lemma {:induction false} ReorderLeaves(tree: Node, x: Id, order: seq<Id>)
    requires UniqueIds(tree) && ApplyReorder(x, order, tree).Ok?
    ensures Relists(tree, ApplyReorder(x, order, tree).value, x, order)
  {
    var p := FirstPath(x, tree).value;
    var n := NodeAt(tree, p);
    var kids := Reordered(n.kind.kids, order);
    DistinctKids(tree, p);
    ReorderedPermutes(n.kind.kids, order);
    PutRewrites(tree, x, n.(kind := n.kind.(kids := kids)));
    assert RelistsAs(tree, ApplyReorder(x, order, tree).value, x, order, kids);
  }

  // A batch goes through exactly when each member is accepted on what the one before it left.
  lemma {:induction false} BatchTurns(ops: seq<Op>, done: nat, tree: Node, r: Node)
    ensures ApplySeq(ops, done, tree) == Ok(r) <==> GoesThrough(ApplyOne, ops, tree, r)
    decreases |ops|
  {
    if ops == [] {
      NoStep(ApplyOne, tree, r);
    } else {
      assert ops == [ops[0]] + ops[1..];
      FirstStep(ApplyOne, ops[0], ops[1..], tree, r);
      var first := ApplyOne(ops[0], tree);
      if first.Ok? {
        BatchTurns(ops[1..], done + 1, first.value, r);
      }
    }
  }

  lemma {:induction false} AcceptedLeaves(op: Op, tree: Node, r: Node)
    requires UniqueIds(tree) && ApplyOne(op, tree) == Ok(r)
    ensures Leaves(op, tree, r)
  {
    match op {
      case EditNode(x, kind) => AtRewrites(x, tree, SetKind(kind));
      case UpdateProp(x, path, update) => PropLeaves(tree, x, path, update);
      case ReplaceBinding(x, slot, binding) => BindingLeaves(tree, x, slot, binding);
      case UpdateStyle(x, style) => StyleLeaves(tree, x, style);
      case PatchStyle(x, delta) => PatchLeaves(tree, x, delta);
      case UpdateState(x, state) => AtRewrites(x, tree, SetState(state));
      case UpdateAccessibility(x, access) =>
        AtRewrites(x, tree, SetAccess(access));
        assert access == map[] <==> |access.Keys| == 0;
      case UpdateTooltip(x, tooltip) => AtRewrites(x, tree, SetTooltip(tooltip));
      case InsertChild(x, child) => InsertLeaves(tree, x, child);
      case RemoveNode(x) => RemoveLeaves(tree, x);
      case MoveNode(_, _) => MoveLeaves(op, tree);
      case ReorderChildren(x, order) => ReorderLeaves(tree, x, order);
      case ReplaceRoot(_) =>
      case Batch(ops) => BatchTurns(ops, 0, tree, r);
    }
  }

  // -- When an op is refused, and why ----------------------------------------

  // Some layout node lists the id.
  ghost predicate Listed(tree: Node, x: Id) {
    exists p :: ListedAt(tree, x, p)
  }

  ghost predicate ListedAt(tree: Node, x: Id, p: Path) {
    ValidPath(tree, p) && ListsChildren(NodeAt(tree, p)) && exists c :: c in NodeAt(tree, p).kind.kids && c.id == x
  }

  ghost predicate HasLayout(tree: Node, x: Id) {
    FindNode(x, tree).Some? && ListsChildren(FindNode(x, tree).value)
  }

  ghost predicate Meet(a: Node, b: Node) {
    exists x :: Occ(x, a) > 0 && Occ(x, b) > 0
  }

  // The code a search for the target fails with, whatever is asked of it then.
  ghost predicate Missing(x: Id, tree: Node, code: Code) {
    code == NodeNotFound && Occ(x, tree) == 0
  }

  ghost predicate RefusesProp(
    x: Id, path: string, update: (string, Fields) -> Result<Fields, Code>, tree: Node, code: Code)
  {
    if !P.ParsesPath(path) then code == PathInvalid
    else if Occ(x, tree) == 0 then code == NodeNotFound
    else
      var n := FindNode(x, tree).value;
      update(n.kind.tag, n.kind.fields) == Err(code)
  }

  ghost predicate RefusesBinding(x: Id, slot: string, tree: Node, code: Code) {
    if Occ(x, tree) == 0 then code == NodeNotFound
    else code == SlotNotFound && forall key :: !BoundUnder(FindNode(x, tree).value.kind.tag, slot, key)
  }

  ghost predicate RefusesInsert(x: Id, child: Node, tree: Node, code: Code) {
    if Occ(x, tree) == 0 then code == ParentNotFound
    else if !HasLayout(tree, x) then code == ChildlessKind
    else code == DuplicateNodeId && Meet(child, tree)
  }

  ghost predicate RefusesRemove(x: Id, tree: Node, code: Code) {
    if x == tree.id then code == KindMismatch else code == NodeNotFound && !Listed(tree, x)
  }

  ghost predicate RefusesMove(x: Id, to: Id, tree: Node, code: Code) {
    if x == to || (Occ(x, tree) > 0 && Occ(to, FindNode(x, tree).value) > 0) then code == KindMismatch
    else if Occ(x, tree) == 0 then code == NodeNotFound
    else if Occ(to, tree) == 0 then code == ParentNotFound
    else if !HasLayout(tree, to) then code == ChildlessKind
    else code == NodeNotFound && !Listed(tree, x)
  }

  ghost predicate RefusesReorder(x: Id, order: seq<Id>, tree: Node, code: Code) {
    if Occ(x, tree) == 0 then code == ParentNotFound
    else if !HasLayout(tree, x) then code == ChildlessKind
    else code == OrderingMismatch && multiset(order) != multiset(Ids(FindNode(x, tree).value.kind.kids))
  }

  // The code a single op is refused with, if it is.
  ghost predicate RefusedWith(op: Op, tree: Node, code: Code)
    requires !op.Batch?
  {
    match op
    case EditNode(x, _) => Missing(x, tree, code)
    case UpdateProp(x, path, update) => RefusesProp(x, path, update, tree, code)
    case ReplaceBinding(x, slot, _) => RefusesBinding(x, slot, tree, code)
    case UpdateStyle(x, _) => Missing(x, tree, code)
    case PatchStyle(x, _) => Missing(x, tree, code)
    case UpdateState(x, state) => if state.NoState? then code == KindMismatch else Missing(x, tree, code)
    case UpdateAccessibility(x, _) => Missing(x, tree, code)
    case UpdateTooltip(x, _) => Missing(x, tree, code)
    case InsertChild(x, child) => RefusesInsert(x, child, tree, code)
    case RemoveNode(x) => RefusesRemove(x, tree, code)
    case MoveNode(x, to) => RefusesMove(x, to, tree, code)
    case ReorderChildren(x, order) => RefusesReorder(x, order, tree, code)
    case ReplaceRoot(_) => false
  }

  // A batch names the first member that is refused.
  ghost predicate Refused(op: Op, tree: Node, e: ApplyError) {
    if op.Batch?
    then e.code == BatchAborted && e.batchIndex.Some? && StopsAt(ApplyOne, op.ops, tree, e.batchIndex.value)
    else e.batchIndex == None && RefusedWith(op, tree, e.code)
  }

  lemma {:induction false} SharesIs(child: Node, tree: Node)
    ensures SharesId(child, tree) <==> Meet(child, tree)
  {
    if y :| Occ(y, child) > 0 && Occ(y, tree) > 0 {
      OccIds(y, child);
      OccIds(y, tree);
    }
    if SharesId(child, tree) {
      var y :| y in AllIds(child) && y in AllIds(tree);
      OccIds(y, child);
      OccIds(y, tree);
    }
  }

  lemma {:induction false} ListedIs(tree: Node, x: Id)
    ensures Listed(tree, x) <==> FirstParent(x, tree).Some?
  {
    if p :| ListedAt(tree, x, p) {
      var kids := NodeAt(tree, p).kind.kids;
      var c :| c in kids && c.id == x;
      var i :| 0 <= i < |kids| && kids[i] == c;
      assert Ids(kids)[i] == x;
      FirstParentComplete(x, tree, p);
    }
    if FirstParent(x, tree).Some? {
      var p := FirstParent(x, tree).value;
      var kids := NodeAt(tree, p).kind.kids;
      var i :| 0 <= i < |kids| && Ids(kids)[i] == x;
      assert kids[i] in kids && kids[i].id == x;
      assert ListedAt(tree, x, p);
    }
  }

  lemma {:induction false} AtRefused(x: Id, tree: Node, rewrite: Node -> Node, e: ApplyError)
    ensures ApplyAt(x, tree, rewrite) == Err(e) <==> e.batchIndex == None && Missing(x, tree, e.code)
  {
  }

  lemma {:induction false} PropRefused(
    x: Id, path: string, update: (string, Fields) -> Result<Fields, Code>, tree: Node, e: ApplyError)
    ensures ApplyUpdateProp(x, path, update, tree) == Err(e) <==>
      e.batchIndex == None && RefusesProp(x, path, update, tree, e.code)
  {
  }

  lemma {:induction false} InsertRefused(x: Id, child: Node, tree: Node, e: ApplyError)
    ensures ApplyInsert(x, child, tree) == Err(e) <==> e.batchIndex == None && RefusesInsert(x, child, tree, e.code)
  {
    SharesIs(child, tree);
  }

  lemma {:induction false} RemoveRefused(x: Id, tree: Node, e: ApplyError)
    ensures ApplyRemove(x, tree) == Err(e) <==> e.batchIndex == None && RefusesRemove(x, tree, e.code)
  {
    ListedIs(tree, x);
  }

  lemma {:induction false} ReorderRefused(x: Id, order: seq<Id>, tree: Node, e: ApplyError)
    ensures ApplyReorder(x, order, tree) == Err(e) <==> e.batchIndex == None && RefusesReorder(x, order, tree, e.code)
  {
  }

  lemma {:induction false} AncestorIs(x: Id, to: Id, tree: Node)
    requires x != to && FindNode(x, tree).Some?
    ensures IsAncestor(x, to, tree) <==> Occ(to, FindNode(x, tree).value) > 0
  {
  }

  // A move nothing stops at first is stopped by a node no list holds, and by nothing else.
  lemma {:induction false} MoveStops(x: Id, to: Id, tree: Node)
    requires UniqueIds(tree) && MoveRefusal(x, to, tree).None?
    ensures ApplyMove(x, to, tree) == Fail(NodeNotFound) <==> !Listed(tree, x)
    ensures ApplyMove(x, to, tree).Ok? <==> Listed(tree, x)
  {
    ListedIs(tree, x);
    L.MoveAccepts(tree, x, to);
  }

  lemma {:induction false} MoveAsks(x: Id, to: Id, tree: Node)
    ensures MoveRefusal(x, to, tree) ==
      if x == to || (Occ(x, tree) > 0 && Occ(to, FindNode(x, tree).value) > 0) then Some(KindMismatch)
      else if Occ(x, tree) == 0 then Some(NodeNotFound)
      else if Occ(to, tree) == 0 then Some(ParentNotFound)
      else if !HasLayout(tree, to) then Some(ChildlessKind)
      else None
  {
    if x != to && FindNode(x, tree).Some? {
      AncestorIs(x, to, tree);
    }
  }

  lemma {:induction false} MoveRefused(x: Id, to: Id, tree: Node, e: ApplyError)
    requires UniqueIds(tree)
    ensures ApplyMove(x, to, tree) == Err(e) <==> e.batchIndex == None && RefusesMove(x, to, tree, e.code)
  {
    MoveAsks(x, to, tree);
    var refusal := MoveRefusal(x, to, tree);
    if refusal.None? {
      MoveStops(x, to, tree);
    } else {
      assert ApplyMove(x, to, tree) == Fail(refusal.value);
    }
  }

  lemma {:induction false} BindingRefused(x: Id, slot: string, binding: string, tree: Node, e: ApplyError)
    ensures ApplyBinding(x, slot, binding, tree) == Err(e) <==>
      e.batchIndex == None && RefusesBinding(x, slot, tree, e.code)
  {
    if FindNode(x, tree).Some? {
      NoSlot(FindNode(x, tree).value.kind.tag, slot);
    }
  }

  lemma {:induction false} NoSlot(tag: string, slot: string)
    ensures BindingKey(tag, slot).None? <==> forall key :: !BoundUnder(tag, slot, key)
  {
    forall key ensures BindingKey(tag, slot) == Some(key) <==> BoundUnder(tag, slot, key) {
      BindingKeyIs(tag, slot, key);
    }
  }

  lemma {:induction false} SeqNext(ops: seq<Op>, done: nat, tree: Node, first: Outcome)
    requires ops != [] && ApplyOne(ops[0], tree) == first
    ensures ApplySeq(ops, done, tree) ==
      if first.Err? then Err(ApplyError(BatchAborted, Some(done))) else ApplySeq(ops[1..], done + 1, first.value)
  {
  }

  lemma {:induction false} StopsNext(ops: seq<Op>, tree: Node, first: Outcome, i: int)
    requires ops != [] && ApplyOne(ops[0], tree) == first
    ensures StopsAt(ApplyOne, ops, tree, i) <==>
      if first.Err? then i == 0 else StopsAt(ApplyOne, ops[1..], first.value, i - 1)
  {
    assert ops == [ops[0]] + ops[1..];
    StopsLater(ApplyOne, ops[0], ops[1..], tree, i);
  }

  lemma {:induction false} StopsWhere(ops: seq<Op>, done: nat, tree: Node, i: nat)
    ensures StopsSo(ops, done, tree, i)
    decreases |ops|
  {
    if ops == [] {
      assert !StopsAt(ApplyOne, ops, tree, i - done);
    } else {
      var first := ApplyOne(ops[0], tree);
      if first.Ok? {
        StopsWhere(ops[1..], done + 1, first.value, i);
      }
      StopsSoNext(ops, done, tree, i, first);
    }
  }

  ghost predicate StopsSo(ops: seq<Op>, done: nat, tree: Node, i: nat) {
    ApplySeq(ops, done, tree) == Err(ApplyError(BatchAborted, Some(i))) <==> StopsAt(ApplyOne, ops, tree, i - done)
  }

  lemma {:induction false} StopsSoNext(ops: seq<Op>, done: nat, tree: Node, i: nat, first: Outcome)
    requires ops != [] && ApplyOne(ops[0], tree) == first
    requires first.Ok? ==> StopsSo(ops[1..], done + 1, first.value, i)
    ensures StopsSo(ops, done, tree, i)
  {
    SeqNext(ops, done, tree, first);
    StopsNext(ops, tree, first, i - done);
    assert i - done - 1 == i - (done + 1);
  }

  lemma {:induction false} StopsNamed(ops: seq<Op>, done: nat, tree: Node)
    ensures var r := ApplySeq(ops, done, tree);
      r.Err? ==> r.error.code == BatchAborted && r.error.batchIndex.Some?
    decreases |ops|
  {
    if ops != [] {
      var first := ApplyOne(ops[0], tree);
      SeqNext(ops, done, tree, first);
      if first.Ok? {
        StopsNamed(ops[1..], done + 1, first.value);
      }
    }
  }

  // A batch stops, and says where, exactly at the first member refused on what the others left.
  lemma {:induction false} BatchStops(ops: seq<Op>, tree: Node, e: ApplyError)
    ensures ApplySeq(ops, 0, tree) == Err(e) <==>
      e.code == BatchAborted && e.batchIndex.Some? && StopsAt(ApplyOne, ops, tree, e.batchIndex.value)
  {
    StopsNamed(ops, 0, tree);
    if e.batchIndex.Some? {
      StopsWhere(ops, 0, tree, e.batchIndex.value);
    }
  }

  // The reducer refuses an op exactly when the table above says so, with that code.
  lemma {:induction false} RefusedExactly(op: Op, tree: Node, e: ApplyError)
    requires UniqueIds(tree)
    ensures ApplyOne(op, tree) == Err(e) <==> Refused(op, tree, e)
  {
    match op {
      case EditNode(x, kind) => AtRefused(x, tree, SetKind(kind), e);
      case UpdateProp(x, path, update) => PropRefused(x, path, update, tree, e);
      case ReplaceBinding(x, slot, binding) => BindingRefused(x, slot, binding, tree, e);
      case UpdateStyle(x, style) => AtRefused(x, tree, SetStyle(style), e);
      case PatchStyle(x, delta) => AtRefused(x, tree, MergeStyle(delta), e);
      case UpdateState(x, state) => AtRefused(x, tree, SetState(state), e);
      case UpdateAccessibility(x, access) => AtRefused(x, tree, SetAccess(access), e);
      case UpdateTooltip(x, tooltip) => AtRefused(x, tree, SetTooltip(tooltip), e);
      case InsertChild(x, child) => InsertRefused(x, child, tree, e);
      case RemoveNode(x) => RemoveRefused(x, tree, e);
      case MoveNode(x, to) => MoveRefused(x, to, tree, e);
      case ReorderChildren(x, order) => ReorderRefused(x, order, tree, e);
      case ReplaceRoot(_) =>
      case Batch(ops) => BatchStops(ops, tree, e);
    }
  }

  // -- Under the guards ------------------------------------------------------

  // What the guarded engine answers on a well-formed tree: the op's own refusal; for a result
  // past a limit LimitExceeded, and for one that repeats an id DuplicateNodeId; or the tree
  // the op leaves.
  ghost predicate Answers(op: Op, tree: Node, r: Outcome) {
    match r
    case Ok(next) => Leaves(op, tree, next) && UniqueIds(next) && Depth(next) <= 24 && Size(next) <= 100000
    case Err(e) =>
      || Refused(op, tree, e)
      || exists next :: Leaves(op, tree, next) && Overruns(next, e)
  }

  ghost predicate Overruns(next: Node, e: ApplyError) {
    && e.batchIndex == None
    && if Depth(next) > 24 || Size(next) > 100000 then e.code == LimitExceeded
       else e.code == DuplicateNodeId && !UniqueIds(next)
  }

  lemma {:induction false} EngineAnswers(op: Op, tree: Node)
    requires WellFormed(tree)
    ensures Answers(op, tree, Apply(op, tree))
  {
    var one := ApplyOne(op, tree);
    if one.Err? {
      RefusedExactly(op, tree, one.error);
    } else {
      AcceptedLeaves(op, tree, one.value);
      V.GuardsExact(op, tree, one.value);
      if Apply(op, tree).Err? && !OpCanGrow(op) {
        V.UnchargedFits(op, tree, one.value);
      }
    }
  }
}
