// The facet-wise three-way merge of a node tree: a recursive facet merge, a
// whole-tree pre-pass for relocated nodes, and the refusal envelope.
module Merge {
  import opened Wrappers
  import opened Tree
  import Ops
  import opened Ordinal

  // -- Vocabulary ------------------------------------------------------------

  datatype Author = Primary | Secondary(tag: Option<string>)

  datatype Class = ConcurrentEdit | ReorderVsStructural | DeleteModify | ConcurrentMove

  datatype Choice = KeepPrimary | KeepSecondary | KeepBase | KeepA | KeepB

  datatype Facet =
    | KindFacet | StyleFacet(member: Member) | StateFacet | AccessFacet | TooltipFacet
    | ChildrenFacet | NodeFacet | InsertFacet | MoveFacet

  // What a cell holds: the canonical bytes of a node, or plain text.
  datatype Text = Bytes(node: Node) | Str(s: string)

  datatype Side = Side(value: Text, tag: Option<string>)

  datatype Conflict = Conflict(
    nodeId: Id, facet: Facet, cls: Class, base: Option<Text>, a: Side, b: Side,
    primary: Option<Text>, secondary: Option<Text>, secondaryTag: Option<string>,
    primacyHeld: bool, choices: seq<Choice>)

  datatype Resolution = Resolution(
    aIsPrimary: bool, pinHeld: bool, choices: seq<Choice>,
    secondaryTag: Option<string>, aTag: Option<string>, bTag: Option<string>)

  datatype Outcome = Merged(tree: Node, resolved: seq<Conflict>) | Refused(conflicts: seq<Conflict>)

  function TagOf(author: Author): Option<string> {
    match author case Primary => None case Secondary(tag) => tag
  }

  function ResolveAuthor(a: Author, b: Author): Resolution {
    var pinned := [KeepPrimary, KeepSecondary, KeepBase];
    if a.Primary? && !b.Primary? then Resolution(true, true, pinned, TagOf(b), TagOf(a), TagOf(b))
    else if !a.Primary? && b.Primary? then Resolution(false, true, pinned, TagOf(a), TagOf(a), TagOf(b))
    else if !a.Primary? then Resolution(false, false, [KeepBase, KeepA, KeepB], None, TagOf(a), TagOf(b))
    else Resolution(false, false, [KeepBase], None, TagOf(a), TagOf(b))
  }

  const Agnostic: Resolution := ResolveAuthor(Secondary(None), Secondary(None))

  // -- Structure -------------------------------------------------------------

  function KidsOf(n: Node): seq<Node> {
    if IsLayout(n) then n.kind.kids else []
  }

  function Childless(kind: Kind): Kind {
    if IsLayoutTag(kind.tag) then kind.(kids := []) else kind
  }

  function WithKindKids(kind: Kind, kids: seq<Node>): Kind {
    if IsLayoutTag(kind.tag) then kind.(kids := kids) else kind
  }

  // The last node of the list with the id, as an index by id holds it.
  function ById(s: seq<Node>, x: Id): (r: Option<Node>)
    ensures r.Some? <==> x in Ids(s)
    ensures r.Some? ==> r.value in s && r.value.id == x
  {
    if x in Ids(s) then Some(Ops.LastWithId(s, x)) else None
  }

  // -- Facet probes: the node reduced to one facet ---------------------------

  function Probe(n: Node, kind: Kind, state: State, access: Option<Fields>, tooltip: Option<string>): Node {
    Node(n.id, kind, None, state, access, tooltip, n.extras)
  }

  function KindProbe(n: Node): Node { Probe(n, Childless(n.kind), NoState, None, None) }
  function StateProbe(shell: Kind, n: Node): Node { Probe(n, shell, n.state, None, None) }
  function AccessProbe(shell: Kind, n: Node): Node { Probe(n, shell, NoState, n.access, None) }
  function TooltipProbe(shell: Kind, n: Node): Node { Probe(n, shell, NoState, None, n.tooltip) }

  // A style member as the merge reads it: four members have a default spelling,
  // the role and the voice read as absent.
  function StyleField(n: Node, m: Member): Option<string> {
    if m in Ops.StyleMembers(n) then Some(Ops.StyleMembers(n)[m]) else
    match m
    case Direction => Some("auto")
    case Emphasis => Some("Normal")
    case Tone => Some("Default")
    case Weight => Some("Standard")
    case Role => None
    case Voice => None
  }

  function FacetName(f: Facet): string {
    match f
    case KindFacet => "kind"
    case StyleFacet(Direction) => "style.direction"
    case StyleFacet(Emphasis) => "style.emphasis"
    case StyleFacet(Role) => "style.role"
    case StyleFacet(Tone) => "style.tone"
    case StyleFacet(Voice) => "style.voice"
    case StyleFacet(Weight) => "style.weight"
    case StateFacet => "state"
    case AccessFacet => "accessibility"
    case TooltipFacet => "tooltip"
    case ChildrenFacet => "children"
    case NodeFacet => "node"
    case InsertFacet => "insert"
    case MoveFacet => "move"
  }

  // -- Recording -------------------------------------------------------------

  function Record(
    res: Resolution, nodeId: Id, facet: Facet, cls: Class,
    baseV: Option<Text>, aV: Option<Text>, bV: Option<Text>): Conflict
  {
    Conflict(
      nodeId, facet, cls, baseV, Side(Deref(aV), res.aTag), Side(Deref(bV), res.bTag),
      if !res.pinHeld then None else if res.aIsPrimary then aV else bV,
      if !res.pinHeld then None else if res.aIsPrimary then bV else aV,
      res.secondaryTag, res.pinHeld, res.choices)
  }

  function Deref(t: Option<Text>): Text {
    match t case None => Str("") case Some(v) => v
  }

  datatype Pick = Base | SideA | SideB

  function Pinned(res: Resolution): Pick {
    if !res.pinHeld then Base else if res.aIsPrimary then SideA else SideB
  }

  function PickOf<T(==)>(res: Resolution, base: T, a: T, b: T): Pick {
    if a != base && b != base && a != b then Pinned(res)
    else if a != base then SideA
    else if b != base then SideB
    else Base
  }

  predicate Clash<T(==)>(base: T, a: T, b: T) {
    a != base && b != base && a != b
  }

  function Chosen<T>(pick: Pick, base: T, a: T, b: T): T {
    match pick case Base => base case SideA => a case SideB => b
  }

  function ProbeCell(res: Resolution, nodeId: Id, facet: Facet, base: Node, a: Node, b: Node): seq<Conflict> {
    if Clash(base, a, b)
    then [Record(res, nodeId, facet, ConcurrentEdit, Some(Bytes(base)), Some(Bytes(a)), Some(Bytes(b)))]
    else []
  }

  function StrText(s: Option<string>): Option<Text> {
    match s case None => None case Some(v) => Some(Str(v))
  }

  function StyleCell(res: Resolution, base: Node, a: Node, b: Node, m: Member): seq<Conflict> {
    var bv, av, cv := StyleField(base, m), StyleField(a, m), StyleField(b, m);
    if Clash(bv, av, cv)
    then [Record(res, base.id, StyleFacet(m), ConcurrentEdit, StrText(bv), StrText(av), StrText(cv))]
    else []
  }

  function StylePick(res: Resolution, base: Node, a: Node, b: Node, m: Member): Option<string> {
    var bv, av, cv := StyleField(base, m), StyleField(a, m), StyleField(b, m);
    Chosen(PickOf(res, bv, av, cv), bv, av, cv)
  }

  // The members in the order their cells are recorded.
  const StyleOrder: seq<Member> := [Tone, Weight, Emphasis, Role, Voice, Direction]

  function StyleCells(res: Resolution, base: Node, a: Node, b: Node, members: seq<Member>): seq<Conflict> {
    if members == [] then [] else
    StyleCell(res, base, a, b, members[0]) + StyleCells(res, base, a, b, members[1..])
  }

  // A merged member is stored only off its default.
  predicate Stored(m: Member, v: Option<string>) {
    match m
    case Role => v.Some? && v.value != "None"
    case Voice => v.Some? && v.value != "Default"
    case Direction => v.Some? && v.value != "auto"
    case Emphasis => v.Some? && v.value != "" && v.value != "Normal"
    case Tone => v.Some? && v.value != "" && v.value != "Default"
    case Weight => v.Some? && v.value != "" && v.value != "Standard"
  }

  function MergedMembers(res: Resolution, base: Node, a: Node, b: Node): Style {
    map m: Member {:trigger Stored(m, StylePick(res, base, a, b, m))}
      | Stored(m, StylePick(res, base, a, b, m)) :: StylePick(res, base, a, b, m).value
  }

  function MergedStyle(res: Resolution, base: Node, a: Node, b: Node): Option<Style> {
    var members := MergedMembers(res, base, a, b);
    if members == map[] then None else Some(members)
  }

  // -- Whole-tree placement --------------------------------------------------

  type Placement = map<Id, Id>

  function PlacementOf(n: Node, parent: Id): Placement
    decreases Size(n), 0
  {
    KidsSmaller(n);
    map[n.id := parent] + PlacementSeq(KidsOf(n), n.id)
  }

  function PlacementSeq(s: seq<Node>, parent: Id): Placement
    decreases SizeSeq(s), 1
  {
    if s == [] then map[] else PlacementOf(s[0], parent) + PlacementSeq(s[1..], parent)
  }

  function NodeIndex(n: Node): map<Id, Node>
    decreases Size(n), 0
  {
    KidsSmaller(n);
    map[n.id := n] + NodeIndexSeq(KidsOf(n))
  }

  function NodeIndexSeq(s: seq<Node>): map<Id, Node>
    decreases SizeSeq(s), 1
  {
    if s == [] then map[] else NodeIndex(s[0]) + NodeIndexSeq(s[1..])
  }

  function KidIds(n: Node): seq<Id>
    decreases Size(n), 0
  {
    KidsSmaller(n);
    [n.id] + KidIdsSeq(KidsOf(n))
  }

  function KidIdsSeq(s: seq<Node>): seq<Id>
    decreases SizeSeq(s), 1
  {
    if s == [] then [] else KidIds(s[0]) + KidIdsSeq(s[1..])
  }

  lemma {:induction false} KidsSmaller(n: Node)
    ensures SizeSeq(KidsOf(n)) < Size(n)
  {
  }

  lemma {:induction false} KidIdsIndexed(n: Node)
    ensures forall x :: x in KidIds(n) <==> x in NodeIndex(n)
    decreases Size(n), 0
  {
    KidsSmaller(n);
    KidIdsIndexedSeq(KidsOf(n));
  }

  lemma {:induction false} KidIdsIndexedSeq(s: seq<Node>)
    ensures forall x :: x in KidIdsSeq(s) <==> x in NodeIndexSeq(s)
    decreases SizeSeq(s), 1
  {
    if s != [] {
      KidIdsIndexed(s[0]);
      KidIdsIndexedSeq(s[1..]);
    }
  }

  lemma {:induction false} PlacementIndexed(n: Node, parent: Id)
    ensures PlacementOf(n, parent).Keys == NodeIndex(n).Keys
    decreases Size(n), 0
  {
    KidsSmaller(n);
    PlacementIndexedSeq(KidsOf(n), n.id);
  }

  lemma {:induction false} PlacementIndexedSeq(s: seq<Node>, parent: Id)
    ensures PlacementSeq(s, parent).Keys == NodeIndexSeq(s).Keys
    decreases SizeSeq(s), 1
  {
    if s != [] {
      PlacementIndexed(s[0], parent);
      PlacementIndexedSeq(s[1..], parent);
    }
  }

  // What the recursion needs to know of the whole trees: the placements, and the
  // order of canonical bytes that breaks a tie between two refused inserts.
  datatype Context = Context(base: Placement, a: Placement, b: Placement, before: (Node, Node) -> bool)

  function ContextOf(base: Node, a: Node, b: Node, before: (Node, Node) -> bool): Context {
    Context(PlacementOf(base, ""), PlacementOf(a, ""), PlacementOf(b, ""), before)
  }

  // The cells of one base id the two branches place differently.
  function MoveCells(res: Resolution, base: Node, a: Node, b: Node, x: Id): seq<Conflict> {
    PlacementIndexed(base, "");
    PlacementIndexed(a, "");
    PlacementIndexed(b, "");
    if x !in NodeIndex(base) || x !in NodeIndex(a) || x !in NodeIndex(b) then [] else
    var basePar, aPar, bPar := PlacementOf(base, "")[x], PlacementOf(a, "")[x], PlacementOf(b, "")[x];
    var baseC, aC, bC := NodeIndex(base)[x], NodeIndex(a)[x], NodeIndex(b)[x];
    if aPar == bPar then []
    else if !((aPar != basePar && bPar != basePar) || aC != bC) then []
    else
      [Record(res, x, MoveFacet, ConcurrentMove, Some(Str(basePar)), Some(Str(aPar)), Some(Str(bPar)))]
      + (if aC == bC then [] else
         [Record(res, x, NodeFacet, ConcurrentMove, Some(Bytes(baseC)), Some(Bytes(aC)), Some(Bytes(bC)))])
  }

  function MoveCellsFrom(res: Resolution, base: Node, a: Node, b: Node, ids: seq<Id>): seq<Conflict> {
    if ids == [] then [] else
    MoveCells(res, base, a, b, ids[0]) + MoveCellsFrom(res, base, a, b, ids[1..])
  }

  function DetectMoves(res: Resolution, base: Node, a: Node, b: Node): seq<Conflict> {
    MoveCellsFrom(res, base, a, b, SortedUnion(KidIds(base), []))
  }

  // -- The child list --------------------------------------------------------

  function Only(ids: seq<Id>, keep: set<Id>): seq<Id> {
    if ids == [] then []
    else if ids[0] in keep then [ids[0]] + Only(ids[1..], keep)
    else Only(ids[1..], keep)
  }

  function Except(ids: seq<Id>, drop: set<Id>): seq<Id> {
    if ids == [] then []
    else if ids[0] !in drop then [ids[0]] + Except(ids[1..], drop)
    else Except(ids[1..], drop)
  }

  function ToSet(ids: seq<Id>): set<Id> {
    set x | x in ids
  }

  // The head keeps every base id, in base order.
  predicate PureAddition(base: seq<Id>, head: seq<Id>) {
    Only(base, ToSet(head)) == base && Only(head, ToSet(base)) == base
  }

  predicate DisjointAdditions(base: seq<Id>, a: seq<Id>, b: seq<Id>) {
    && PureAddition(base, a) && PureAddition(base, b)
    && ToSet(Except(a, ToSet(base))) !! ToSet(Except(b, ToSet(base)))
  }

  // Both sides changed the list, differently, and not by disjoint additions.
  predicate OrderClash(base: seq<Id>, a: seq<Id>, b: seq<Id>) {
    Clash(base, a, b) && !DisjointAdditions(base, a, b)
  }

  function MergedOrder(res: Resolution, base: seq<Id>, a: seq<Id>, b: seq<Id>): seq<Id> {
    if a == base && b == base then base
    else if b == base then a
    else if a == base then b
    else if a == b then a
    else if DisjointAdditions(base, a, b)
    then base + SortedUnion(Except(a, ToSet(base)), Except(b, ToSet(base)))
    else Chosen(Pinned(res), base, a, b)
  }

  function Join(ids: seq<Id>): string {
    if ids == [] then "" else if |ids| == 1 then ids[0] else ids[0] + "," + Join(ids[1..])
  }

  function OrderCell(res: Resolution, nodeId: Id, base: seq<Id>, a: seq<Id>, b: seq<Id>): seq<Conflict> {
    if OrderClash(base, a, b)
    then
      [Record(res, nodeId, ChildrenFacet, ReorderVsStructural,
              Some(Str(Join(base))), Some(Str(Join(a))), Some(Str(Join(b))))]
    else []
  }

  // One side edited a child the other removed from the tree.
  function DeleteCell(
      res: Resolution, c: Context, x: Id, base: Option<Node>, a: Option<Node>, b: Option<Node>): seq<Conflict>
    requires base.Some?
  {
    if a.Some? == b.Some? then []
    else if a.None? && x in c.a then []
    else if b.None? && x in c.b then []
    else
      var survivor := if a.Some? then a.value else b.value;
      if survivor == base.value then []
      else
        [Record(res, x, NodeFacet, DeleteModify, Some(Bytes(base.value)),
                Some(if a.Some? then Bytes(survivor) else Str("")),
                Some(if a.Some? then Str("") else Bytes(survivor)))]
  }

  function DeleteCells(
    res: Resolution, c: Context, ids: seq<Id>, base: seq<Node>, a: seq<Node>, b: seq<Node>): seq<Conflict>
    requires forall x | x in ids :: x in Ids(base)
  {
    if ids == [] then [] else
    DeleteCell(res, c, ids[0], ById(base, ids[0]), ById(a, ids[0]), ById(b, ids[0]))
    + DeleteCells(res, c, ids[1..], base, a, b)
  }

  // -- The recursion ---------------------------------------------------------

  function OwnCells(res: Resolution, base: Node, a: Node, b: Node): seq<Conflict> {
    var shell := Childless(base.kind);
    ProbeCell(res, base.id, KindFacet, KindProbe(base), KindProbe(a), KindProbe(b))
    + StyleCells(res, base, a, b, StyleOrder)
    + ProbeCell(res, base.id, StateFacet, StateProbe(shell, base), StateProbe(shell, a), StateProbe(shell, b))
    + ProbeCell(res, base.id, AccessFacet, AccessProbe(shell, base), AccessProbe(shell, a), AccessProbe(shell, b))
    + ProbeCell(res, base.id, TooltipFacet, TooltipProbe(shell, base), TooltipProbe(shell, a), TooltipProbe(shell, b))
  }

  function MergedKind(res: Resolution, base: Node, a: Node, b: Node): Kind {
    Childless(Chosen(PickOf(res, KindProbe(base), KindProbe(a), KindProbe(b)), base, a, b).kind)
  }

  function MergedState(res: Resolution, base: Node, a: Node, b: Node): State {
    var shell := Childless(base.kind);
    Chosen(PickOf(res, StateProbe(shell, base), StateProbe(shell, a), StateProbe(shell, b)), base, a, b).state
  }

  function MergedAccess(res: Resolution, base: Node, a: Node, b: Node): Option<Fields> {
    var shell := Childless(base.kind);
    Chosen(PickOf(res, AccessProbe(shell, base), AccessProbe(shell, a), AccessProbe(shell, b)), base, a, b).access
  }

  function MergedTooltip(res: Resolution, base: Node, a: Node, b: Node): Option<string> {
    var shell := Childless(base.kind);
    Chosen(PickOf(res, TooltipProbe(shell, base), TooltipProbe(shell, a), TooltipProbe(shell, b)), base, a, b).tooltip
  }

  function MergedNode(res: Resolution, base: Node, a: Node, b: Node, kids: seq<Node>): Node {
    Node(
      base.id, WithKindKids(MergedKind(res, base, a, b), kids), MergedStyle(res, base, a, b),
      MergedState(res, base, a, b), MergedAccess(res, base, a, b), MergedTooltip(res, base, a, b), base.extras)
  }

  // A branch without the node merges as if it held the base.
  function OrBase(o: Option<Node>, base: Node): Node {
    match o case None => base case Some(n) => n
  }

  function Merge3(res: Resolution, c: Context, base: Node, aOpt: Option<Node>, bOpt: Option<Node>)
    : (r: (Node, seq<Conflict>))
    ensures r.0.id == base.id
    decreases Size(base), 1, 0
  {
    var a, b := OrBase(aOpt, base), OrBase(bOpt, base);
    var baseKids, aKids, bKids := KidsOf(base), KidsOf(a), KidsOf(b);
    var order := MergedOrder(res, Ids(baseKids), Ids(aKids), Ids(bKids));
    var kids := MergeKids(res, c, order, base, aKids, bKids);
    (MergedNode(res, base, a, b, kids.0),
     OwnCells(res, base, a, b)
     + DeleteCells(res, c, Ids(baseKids), baseKids, aKids, bKids)
     + OrderCell(res, base.id, Ids(baseKids), Ids(aKids), Ids(bKids))
     + kids.1)
  }

  function MergeKids(
    res: Resolution, c: Context, order: seq<Id>, base: Node, a: seq<Node>, b: seq<Node>)
    : (r: (seq<Node>, seq<Conflict>))
    decreases Size(base), 0, |order|
  {
    if order == [] then ([], []) else
    var head := MergeKid(res, c, order[0], base, a, b);
    var rest := MergeKids(res, c, order[1..], base, a, b);
    (head.0 + rest.0, head.1 + rest.1)
  }

  // One id of the merged order; an id no list holds contributes nothing.
  function MergeKid(
    res: Resolution, c: Context, x: Id, base: Node, a: seq<Node>, b: seq<Node>)
    : (r: (seq<Node>, seq<Conflict>))
    decreases Size(base), 0, 0
  {
    var inBase, inA, inB := ById(KidsOf(base), x), ById(a, x), ById(b, x);
    if inBase.Some? then
      KidSmaller(base, inBase.value);
      var m := Merge3(res, c, inBase.value, inA, inB);
      ([m.0], m.1)
    else
      match (inA, inB)
      case (Some(ac), Some(bc)) =>
        if ac == bc then ([ac], [])
        else
          ([if c.before(ac, bc) then ac else bc],
           [Record(res, x, InsertFacet, ConcurrentEdit, Some(Str("")), Some(Bytes(ac)), Some(Bytes(bc)))])
      case (Some(ac), None) => ([ac], [])
      case (None, Some(bc)) => ([bc], [])
      case (None, None) => ([], [])
  }

  lemma {:induction false} KidSmaller(n: Node, c: Node)
    requires c in KidsOf(n)
    ensures Size(c) < Size(n)
  {
    var i :| 0 <= i < |KidsOf(n)| && KidsOf(n)[i] == c;
    SizeMember(KidsOf(n), i);
  }

  // -- Entry points ----------------------------------------------------------

  function MergeAll(res: Resolution, before: (Node, Node) -> bool, base: Node, a: Node, b: Node)
    : (Node, seq<Conflict>)
  {
    var c := ContextOf(base, a, b, before);
    var m := Merge3(res, c, base, Some(a), Some(b));
    (m.0, DetectMoves(res, base, a, b) + m.1)
  }

  function Merge3Way(before: (Node, Node) -> bool, base: Node, a: Node, b: Node): Outcome {
    var m := MergeAll(Agnostic, before, base, a, b);
    if m.1 == [] then Merged(m.0, []) else Refused(m.1)
  }

  function Blocking(conflicts: seq<Conflict>): seq<Conflict> {
    if conflicts == [] then []
    else if !conflicts[0].primacyHeld then [conflicts[0]] + Blocking(conflicts[1..])
    else Blocking(conflicts[1..])
  }

  function Merge3WayWithAuthor(
    authorA: Author, authorB: Author, before: (Node, Node) -> bool, base: Node, a: Node, b: Node): Outcome
  {
    var m := MergeAll(ResolveAuthor(authorA, authorB), before, base, a, b);
    if Blocking(m.1) == [] then Merged(m.0, m.1) else Refused(Blocking(m.1))
  }

  // -- The refusal envelope --------------------------------------------------

  predicate CellLess(c: Conflict, d: Conflict) {
    Less(c.nodeId, d.nodeId) || (c.nodeId == d.nodeId && Less(FacetName(c.facet), FacetName(d.facet)))
  }

  // Stable: a cell goes before the first one it is not after.
  function InsertCell(c: Conflict, s: seq<Conflict>): seq<Conflict> {
    if s == [] then [c]
    else if CellLess(s[0], c) then [s[0]] + InsertCell(c, s[1..])
    else [c] + s
  }

  function SortCanonical(s: seq<Conflict>): seq<Conflict> {
    if s == [] then [] else InsertCell(s[0], SortCanonical(s[1..]))
  }
}
