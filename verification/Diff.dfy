// The structural diff: from a before tree and an after tree, the op script that
// turns one into the other.
module Diff {
  import opened Wrappers
  import opened Tree
  import opened Ops

  function StripKids(n: Node): Node {
    if IsLayout(n) then n.(kind := n.kind.(kids := [])) else n
  }

  // `n` carrying the style and the two traits of `src`.
  function WithFacetsOf(n: Node, src: Node): Node {
    n.(style := src.style, access := src.access, tooltip := src.tooltip)
  }

  // A style record with every member materialised at its default.
  function RecordBy(identity: Member -> string, members: Style): Style {
    map k: Member {:trigger identity(k)} | true :: if k in members then members[k] else identity(k)
  }

  function StyleRecord(n: Node): Style {
    RecordBy(IdentityOf, StyleMembers(n))
  }

  // The members of a record that differ from another's.
  function MovedFrom(before: Style, after: Style): Style {
    map k | k in after && (k !in before || before[k] != after[k]) :: after[k]
  }

  function Moved(a: Node, b: Node): Style {
    MovedFrom(StyleRecord(a), StyleRecord(b))
  }

  // A whole record only when every member moved, else the delta.
  function StyleEdit(a: Node, b: Node): seq<Op> {
    var moved := Moved(a, b);
    if moved == map[] then []
    else if moved.Keys == StyleRecord(b).Keys then [UpdateStyle(b.id, Kept(StyleRecord(b)))]
    else [PatchStyle(b.id, moved)]
  }

  function AccessRecord(n: Node): Fields {
    match n.access case None => map[] case Some(m) => m
  }

  function AccessEdit(a: Node, b: Node): seq<Op> {
    if AccessRecord(a) == AccessRecord(b) then [] else [UpdateAccessibility(b.id, AccessRecord(b))]
  }

  function TooltipEdit(a: Node, b: Node): seq<Op> {
    if a.tooltip == b.tooltip then [] else [UpdateTooltip(b.id, b.tooltip)]
  }

  function FacetEdits(a: Node, b: Node): seq<Op> {
    StyleEdit(a, b) + (AccessEdit(a, b) + TooltipEdit(a, b))
  }

  // A node's place in its parent's child list.
  datatype Seat = Seat(parentId: Id, position: nat, siblings: seq<Id>)

  // Only the facets differ.
  predicate FacetsOnly(a: Node, b: Node) {
    WithFacetsOf(a, b) == b
  }

  // Own content agrees but for the facets, and the children line up id for id.
  predicate Recurses(a: Node, b: Node) {
    && IsLayout(a) && IsLayout(b)
    && StripKids(WithFacetsOf(a, b)) == StripKids(b)
    && Ids(a.kind.kids) == Ids(b.kind.kids)
  }

  function ReplaceSeat(a: Node, b: Node, seat: Seat): seq<Op> {
    [RemoveNode(a.id)] + ([InsertChild(seat.parentId, b)] + RestateOrder(seat))
  }

  // An insert appends, so unless the seat was last the sibling order is restated.
  function RestateOrder(seat: Seat): seq<Op> {
    if seat.position != |seat.siblings| - 1 then [ReorderChildren(seat.parentId, seat.siblings)] else []
  }

  function DiffNode(a: Node, b: Node, seat: Option<Seat>): seq<Op>
    decreases Size(a), 1, 0
  {
    if a == b then []
    else if FacetsOnly(a, b) then FacetEdits(a, b)
    else if Recurses(a, b) then FacetEdits(a, b) + DiffKids(a, b, 0)
    else
      match seat
      case None => [ReplaceRoot(b)]
      case Some(s) => ReplaceSeat(a, b, s)
  }

  // The edits of the matched children from the i-th on.
  function DiffKids(a: Node, b: Node, i: nat): seq<Op>
    requires |a.kind.kids| == |b.kind.kids|
    decreases Size(a), 0, |a.kind.kids| - i
  {
    if i >= |a.kind.kids| then [] else
    SlotSizes(a);
    assert Slots(a)[i] == a.kind.kids[i];
    DiffNode(a.kind.kids[i], b.kind.kids[i], Some(Seat(a.id, i, Ids(b.kind.kids)))) + DiffKids(a, b, i + 1)
  }

  function Diff(before: Node, after: Node): seq<Op> {
    if before.id != after.id then [ReplaceRoot(after)] else DiffNode(before, after, None)
  }

  function DiffBatched(before: Node, after: Node): seq<Op> {
    var script := Diff(before, after);
    if |script| >= 2 then [Batch(script)] else script
  }
}
