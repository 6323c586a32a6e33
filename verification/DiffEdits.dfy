// Which edits a diff's script holds, and in which order.
module DiffEdits {
  import opened Wrappers
  import opened Tree
  import opened Ops
  import D = Diff
  import R = DiffRoundTrip
  import W = OpWrites

  // -- One edit --------------------------------------------------------------

  // Two versions of a node that differ in style, accessibility or tooltip at most.
  predicate SameBut(a: Node, b: Node) {
    a.id == b.id && a.kind == b.kind && a.state == b.state && a.extras == b.extras
  }

  // Two layout nodes with the same content but for those, listing the same child ids in order.
  predicate Lined(a: Node, b: Node) {
    && IsLayout(a) && IsLayout(b)
    && a.id == b.id && a.kind.tag == b.kind.tag && a.kind.fields == b.kind.fields && a.kind.stray == b.kind.stray
    && a.state == b.state && a.extras == b.extras
    && Ids(a.kind.kids) == Ids(b.kind.kids)
  }

  function Traits(n: Node): Fields {
    if n.access.Some? then n.access.value else map[]
  }

  predicate Restyled(a: Node, b: Node, m: Member) {
    W.Reads(a.style, m) != W.Reads(b.style, m)
  }

  // A style edit: the whole record when all six members moved, what is off its default in it;
  // otherwise exactly the members that moved.
  ghost predicate StyleEdits(a: Node, b: Node, op: Op) {
    match op
    case UpdateStyle(x, style) =>
      && x == b.id && (forall m: Member :: Restyled(a, b, m))
      && (forall m: Member :: m in style <==> W.Reads(b.style, m) != W.Reads(None, m))
      && forall m | m in style :: style[m] == W.Reads(b.style, m)
    case PatchStyle(x, delta) =>
      && x == b.id && (exists m: Member :: Restyled(a, b, m)) && (exists m: Member :: !Restyled(a, b, m))
      && (forall m: Member :: m in delta <==> Restyled(a, b, m))
      && forall m | m in delta :: delta[m] == W.Reads(b.style, m)
    case _ => false
  }

  ghost predicate FacetEdit(a: Node, b: Node, op: Op) {
    match op
    case UpdateAccessibility(x, access) => x == b.id && Traits(a) != Traits(b) && access == Traits(b)
    case UpdateTooltip(x, tooltip) => x == b.id && a.tooltip != b.tooltip && tooltip == b.tooltip
    case _ => StyleEdits(a, b, op)
  }

  // What takes one node to its counterpart where the recursion meets them: edits of the facets
  // that moved, or else the node replaced whole, in place.
  ghost predicate EditHere(a: Node, b: Node, seat: Option<D.Seat>, op: Op) {
    if SameBut(a, b) || Lined(a, b) then FacetEdit(a, b, op)
    else if seat.None? then op == ReplaceRoot(b)
    else
      || op == RemoveNode(a.id)
      || op == InsertChild(seat.value.parentId, b)
      || (seat.value.position + 1 != |seat.value.siblings|
          && op == ReorderChildren(seat.value.parentId, seat.value.siblings))
  }

  // The recursion goes down through lined-up layout nodes only.
  ghost predicate EditAt(a: Node, b: Node, seat: Option<D.Seat>, p: Path, op: Op)
    decreases |p|
  {
    if p == [] then EditHere(a, b, seat, op) else
    && Lined(a, b) && p[0] < |a.kind.kids| && |Ids(a.kind.kids)| == |Ids(b.kind.kids)|
    && EditAt(
      a.kind.kids[p[0]], b.kind.kids[p[0]], Some(D.Seat(a.id, p[0], Ids(b.kind.kids))), p[1..], op)
  }

  // -- A script in order -----------------------------------------------------

  // A node before its children, children in order.
  ghost predicate Precedes(p: Path, q: Path) {
    if p == [] then q != [] else q != [] && (p[0] < q[0] || (p[0] == q[0] && Precedes(p[1..], q[1..])))
  }

  // The edits of one node: style, accessibility, tooltip; or remove, insert, restate.
  function Stage(op: Op): nat {
    match op
    case UpdateAccessibility(_, _) => 1
    case InsertChild(_, _) => 1
    case UpdateTooltip(_, _) => 2
    case ReorderChildren(_, _) => 2
    case _ => 0
  }

  ghost predicate InSequence(places: seq<Path>, script: seq<Op>)
    requires |places| == |script|
  {
    forall k, l | 0 <= k < l < |script| ::
      Precedes(places[k], places[l]) || (places[k] == places[l] && Stage(script[k]) < Stage(script[l]))
  }

  // The script is every edit there is, each once, in order.
  ghost predicate Edits(a: Node, b: Node, seat: Option<D.Seat>, script: seq<Op>, places: seq<Path>) {
    && |places| == |script| && InSequence(places, script)
    && (forall k | 0 <= k < |script| :: EditAt(a, b, seat, places[k], script[k]))
    && forall p, op | EditAt(a, b, seat, p, op) :: Listed(places, script, p, op)
  }

  ghost predicate Listed(places: seq<Path>, script: seq<Op>, p: Path, op: Op)
    requires |places| == |script|
  {
    exists k :: 0 <= k < |script| && places[k] == p && script[k] == op
  }

  // -- Facets ----------------------------------------------------------------

  lemma {:induction false} MembersMoved(a: Node, b: Node)
    ensures forall m: Member :: D.StyleRecord(b)[m] == W.Reads(b.style, m)
    ensures forall m: Member :: m in D.Moved(a, b) <==> Restyled(a, b, m)
    ensures forall m | m in D.Moved(a, b) :: D.Moved(a, b)[m] == W.Reads(b.style, m)
    ensures forall m: Member :: m in Kept(D.StyleRecord(b)) <==> W.Reads(b.style, m) != W.Reads(None, m)
    ensures forall m | m in Kept(D.StyleRecord(b)) :: Kept(D.StyleRecord(b))[m] == W.Reads(b.style, m)
  {
    assert forall m: Member :: IdentityOf(m) == W.Reads(None, m);
    assert forall m: Member :: D.StyleRecord(a)[m] == W.Reads(a.style, m);
  }

  lemma {:induction false} MovedCases(a: Node, b: Node)
    ensures D.Moved(a, b) == map[] <==> forall m: Member :: !Restyled(a, b, m)
    ensures D.Moved(a, b).Keys == D.StyleRecord(b).Keys <==> forall m: Member :: Restyled(a, b, m)
  {
    MembersMoved(a, b);
    var moved := D.Moved(a, b);
    if moved != map[] {
      assert moved.Keys != {};
      var m :| m in moved;
    }
  }

  lemma {:induction false} WholeEditIs(a: Node, b: Node, op: Op)
    requires op.UpdateStyle?
    ensures StyleEdits(a, b, op) <==>
      op == UpdateStyle(b.id, Kept(D.StyleRecord(b))) && forall m: Member :: Restyled(a, b, m)
  {
    MembersMoved(a, b);
    if StyleEdits(a, b, op) {
      assert op.style == Kept(D.StyleRecord(b));
    }
  }

  lemma {:induction false} DeltaEditIs(a: Node, b: Node, op: Op)
    requires op.PatchStyle?
    ensures StyleEdits(a, b, op) <==>
      && op == PatchStyle(b.id, D.Moved(a, b))
      && (exists m: Member :: Restyled(a, b, m)) && exists m: Member :: !Restyled(a, b, m)
  {
    MembersMoved(a, b);
    if StyleEdits(a, b, op) {
      assert op.style == D.Moved(a, b);
    }
  }

  lemma {:induction false} StyleEditIs(a: Node, b: Node, op: Op)
    ensures |D.StyleEdit(a, b)| <= 1
    ensures op in D.StyleEdit(a, b) <==> StyleEdits(a, b, op)
  {
    MovedCases(a, b);
    assert Restyled(a, b, Tone) || !Restyled(a, b, Tone);
    if op.UpdateStyle? {
      WholeEditIs(a, b, op);
    } else if op.PatchStyle? {
      DeltaEditIs(a, b, op);
    }
  }

  lemma {:induction false} InThree(s: seq<Op>, t: seq<Op>, u: seq<Op>, op: Op)
    ensures op in s + (t + u) <==> op in s || op in t || op in u
  {
  }

  lemma {:induction false} TraitEditsAre(a: Node, b: Node, op: Op)
    ensures op in D.AccessEdit(a, b) <==> op.UpdateAccessibility? && FacetEdit(a, b, op)
    ensures op in D.TooltipEdit(a, b) <==> op.UpdateTooltip? && FacetEdit(a, b, op)
  {
  }

  lemma {:induction false} FacetEditsAre(a: Node, b: Node)
    ensures forall op :: op in D.FacetEdits(a, b) <==> FacetEdit(a, b, op)
    ensures var script := D.FacetEdits(a, b);
      forall k, l | 0 <= k < l < |script| :: Stage(script[k]) < Stage(script[l])
  {
    var style, access, tooltip := D.StyleEdit(a, b), D.AccessEdit(a, b), D.TooltipEdit(a, b);
    StyleEditIs(a, b, UpdateTooltip(b.id, None));
    StagesJoin(style, access, tooltip);
    forall op ensures op in D.FacetEdits(a, b) <==> FacetEdit(a, b, op) {
      InThree(style, access, tooltip, op);
      StyleEditIs(a, b, op);
      TraitEditsAre(a, b, op);
    }
  }

  lemma {:induction false} StagesJoin(s: seq<Op>, t: seq<Op>, u: seq<Op>)
    requires |s| <= 1 && |t| <= 1 && |u| <= 1
    requires forall op | op in s :: Stage(op) == 0
    requires forall op | op in t :: Stage(op) == 1
    requires forall op | op in u :: Stage(op) == 2
    ensures var all := s + (t + u); forall k, l | 0 <= k < l < |all| :: Stage(all[k]) < Stage(all[l])
  {
  }

  // -- The recursion ---------------------------------------------------------

  lemma {:induction false} RulesAre(a: Node, b: Node)
    requires a.id == b.id
    ensures D.FacetsOnly(a, b) <==> SameBut(a, b)
    ensures D.Recurses(a, b) <==> Lined(a, b)
  {
  }

  lemma {:induction false} NoEdits(n: Node, seat: Option<D.Seat>, p: Path, op: Op)
    ensures !EditAt(n, n, seat, p, op)
    decreases |p|
  {
    assert !Restyled(n, n, Tone);
    if p != [] && Lined(n, n) && p[0] < |n.kind.kids| {
      NoEdits(n.kind.kids[p[0]], Some(D.Seat(n.id, p[0], Ids(n.kind.kids))), p[1..], op);
    }
  }

  lemma {:induction false} NoEditsBelow(a: Node, b: Node, seat: Option<D.Seat>, p: Path, op: Op)
    requires SameBut(a, b) && p != []
    ensures !EditAt(a, b, seat, p, op)
  {
    if Lined(a, b) && p[0] < |a.kind.kids| {
      NoEdits(a.kind.kids[p[0]], Some(D.Seat(a.id, p[0], Ids(b.kind.kids))), p[1..], op);
    }
  }

  function Here(n: nat): seq<Path> {
    seq(n, _ => [])
  }

  lemma {:induction false} FacetsAlone(a: Node, b: Node, seat: Option<D.Seat>)
    requires SameBut(a, b)
    ensures Edits(a, b, seat, D.FacetEdits(a, b), Here(|D.FacetEdits(a, b)|))
  {
    var script := D.FacetEdits(a, b);
    FacetEditsAre(a, b);
    forall p, op | EditAt(a, b, seat, p, op) ensures Listed(Here(|script|), script, p, op) {
      if p != [] {
        NoEditsBelow(a, b, seat, p, op);
      }
      assert op in script;
    }
  }

  lemma {:induction false} ReplacedWhole(a: Node, b: Node, seat: Option<D.Seat>)
    requires a.id == b.id && !SameBut(a, b) && !Lined(a, b)
    ensures var script := D.DiffNode(a, b, seat); Edits(a, b, seat, script, Here(|script|))
  {
    var script := D.DiffNode(a, b, seat);
    RulesAre(a, b);
    forall op | EditHere(a, b, seat, op) ensures op in script {
    }
    forall p, op | EditAt(a, b, seat, p, op) ensures Listed(Here(|script|), script, p, op) {
      assert op in script;
    }
  }

  lemma {:induction false} NodeEdits(a: Node, b: Node, seat: Option<D.Seat>) returns (places: seq<Path>)
    requires a.id == b.id
    ensures Edits(a, b, seat, D.DiffNode(a, b, seat), places)
    decreases Size(a), 1, 0
  {
    RulesAre(a, b);
    if a == b {
      places := [];
      forall p, op ensures !EditAt(a, b, seat, p, op) {
        NoEdits(a, seat, p, op);
      }
    } else if SameBut(a, b) {
      FacetsAlone(a, b, seat);
      places := Here(|D.FacetEdits(a, b)|);
    } else if Lined(a, b) {
      LinedLengths(a, b);
      var below := KidEdits(a, b, 0);
      places := Here(|D.FacetEdits(a, b)|) + below;
      LinedEdits(a, b, seat, below);
    } else {
      ReplacedWhole(a, b, seat);
      places := Here(|D.DiffNode(a, b, seat)|);
    }
  }

  lemma {:induction false} LinedLengths(a: Node, b: Node)
    requires Lined(a, b)
    ensures |a.kind.kids| == |b.kind.kids| == |Ids(a.kind.kids)|
    ensures forall i | 0 <= i < |a.kind.kids| :: a.kind.kids[i].id == b.kind.kids[i].id
  {
    forall i | 0 <= i < |a.kind.kids| ensures a.kind.kids[i].id == b.kind.kids[i].id {
      assert Ids(a.kind.kids)[i] == Ids(b.kind.kids)[i];
    }
  }

  // The edits of the children from the i-th on.
  ghost predicate BelowFrom(a: Node, b: Node, i: nat, script: seq<Op>, places: seq<Path>) {
    && |places| == |script| && InSequence(places, script)
    && (forall k | 0 <= k < |script| ::
          places[k] != [] && places[k][0] >= i && EditAt(a, b, None, places[k], script[k]))
    && forall p, op | EditAt(a, b, None, p, op) && p != [] && p[0] >= i :: Listed(places, script, p, op)
  }

  lemma {:induction false} AnySeat(a: Node, b: Node, seat: Option<D.Seat>, p: Path, op: Op)
    requires p != []
    ensures EditAt(a, b, seat, p, op) <==> EditAt(a, b, None, p, op)
  {
  }

  lemma {:induction false} LinedEdits(a: Node, b: Node, seat: Option<D.Seat>, below: seq<Path>)
    requires a.id == b.id && a != b && !SameBut(a, b) && Lined(a, b) && |a.kind.kids| == |b.kind.kids|
    requires BelowFrom(a, b, 0, D.DiffKids(a, b, 0), below)
    ensures Edits(a, b, seat, D.DiffNode(a, b, seat), Here(|D.FacetEdits(a, b)|) + below)
  {
    RulesAre(a, b);
    FacetEditsAre(a, b);
    var facets, kids := D.FacetEdits(a, b), D.DiffKids(a, b, 0);
    assert D.DiffNode(a, b, seat) == facets + kids;
    HereFirst(facets, below, kids);
    LinedSound(a, b, seat, facets, below, kids);
    LinedAll(a, b, seat, facets, below, kids);
  }

  lemma {:induction false} HereFirst(facets: seq<Op>, below: seq<Path>, kids: seq<Op>)
    requires forall k, l | 0 <= k < l < |facets| :: Stage(facets[k]) < Stage(facets[l])
    requires |below| == |kids| && InSequence(below, kids) && forall k | 0 <= k < |below| :: below[k] != []
    ensures InSequence(Here(|facets|) + below, facets + kids)
  {
    var places, script := Here(|facets|) + below, facets + kids;
    forall k, l | 0 <= k < l < |script|
      ensures Precedes(places[k], places[l]) || (places[k] == places[l] && Stage(script[k]) < Stage(script[l]))
    {
      if k >= |facets| {
        assert places[k] == below[k - |facets|] && places[l] == below[l - |facets|];
      }
    }
  }

  lemma {:induction false} LinedSound(
    a: Node, b: Node, seat: Option<D.Seat>, facets: seq<Op>, below: seq<Path>, kids: seq<Op>)
    requires Lined(a, b) && forall op | op in facets :: FacetEdit(a, b, op)
    requires |below| == |kids|
    requires forall k | 0 <= k < |kids| :: below[k] != [] && EditAt(a, b, None, below[k], kids[k])
    ensures var places, script := Here(|facets|) + below, facets + kids;
      forall k | 0 <= k < |script| :: EditAt(a, b, seat, places[k], script[k])
  {
    var places, script := Here(|facets|) + below, facets + kids;
    forall k | 0 <= k < |script| ensures EditAt(a, b, seat, places[k], script[k]) {
      if k < |facets| {
        assert script[k] == facets[k] && places[k] == [];
        assert facets[k] in facets;
      } else {
        AnySeat(a, b, seat, places[k], script[k]);
      }
    }
  }

  lemma {:induction false} LinedAll(
    a: Node, b: Node, seat: Option<D.Seat>, facets: seq<Op>, below: seq<Path>, kids: seq<Op>)
    requires Lined(a, b) && |below| == |kids| && forall op | FacetEdit(a, b, op) :: op in facets
    requires forall p, op | EditAt(a, b, None, p, op) && p != [] :: Listed(below, kids, p, op)
    ensures forall p, op | EditAt(a, b, seat, p, op) :: Listed(Here(|facets|) + below, facets + kids, p, op)
  {
    var places, script := Here(|facets|) + below, facets + kids;
    forall p, op | EditAt(a, b, seat, p, op) ensures Listed(places, script, p, op) {
      if p == [] {
        var k :| 0 <= k < |facets| && facets[k] == op;
        assert places[k] == p && script[k] == op;
      } else {
        AnySeat(a, b, seat, p, op);
        ListedLater(Here(|facets|), facets, below, kids, p, op);
      }
    }
  }

  lemma {:induction false} ListedLater(
    first: seq<Path>, ops: seq<Op>, places: seq<Path>, script: seq<Op>, p: Path, op: Op)
    requires |first| == |ops| && |places| == |script| && Listed(places, script, p, op)
    ensures Listed(first + places, ops + script, p, op)
  {
    var k :| 0 <= k < |script| && places[k] == p && script[k] == op;
    assert (first + places)[|ops| + k] == p && (ops + script)[|ops| + k] == op;
  }

  function Under(i: nat, ps: seq<Path>): (r: seq<Path>)
    ensures |r| == |ps| && forall k | 0 <= k < |ps| :: r[k] == [i] + ps[k]
  {
    seq(|ps|, k requires 0 <= k < |ps| => [i] + ps[k])
  }

  lemma {:induction false} EditBelow(a: Node, b: Node, i: nat, p: Path, op: Op)
    requires Lined(a, b) && i < |a.kind.kids| == |b.kind.kids| == |Ids(a.kind.kids)|
    ensures EditAt(a, b, None, [i] + p, op) <==>
      EditAt(a.kind.kids[i], b.kind.kids[i], Some(D.Seat(a.id, i, Ids(b.kind.kids))), p, op)
  {
    assert ([i] + p)[1..] == p;
  }

  lemma {:induction false} KidEdits(a: Node, b: Node, i: nat) returns (places: seq<Path>)
    requires Lined(a, b) && |a.kind.kids| == |b.kind.kids|
    ensures BelowFrom(a, b, i, D.DiffKids(a, b, i), places)
    decreases Size(a), 0, |a.kind.kids| - i
  {
    LinedLengths(a, b);
    if i >= |a.kind.kids| {
      places := [];
    } else {
      SlotSizes(a);
      assert Slots(a)[i] == a.kind.kids[i];
      var head := NodeEdits(a.kind.kids[i], b.kind.kids[i], Some(D.Seat(a.id, i, Ids(b.kind.kids))));
      var rest := KidEdits(a, b, i + 1);
      places := Under(i, head) + rest;
      KidsJoin(a, b, i, head, rest);
    }
  }

  lemma {:induction false} KidsJoin(a: Node, b: Node, i: nat, head: seq<Path>, rest: seq<Path>)
    requires Lined(a, b) && i < |a.kind.kids| == |b.kind.kids| == |Ids(a.kind.kids)|
    requires var seat := Some(D.Seat(a.id, i, Ids(b.kind.kids)));
      Edits(a.kind.kids[i], b.kind.kids[i], seat, D.DiffNode(a.kind.kids[i], b.kind.kids[i], seat), head)
    requires BelowFrom(a, b, i + 1, D.DiffKids(a, b, i + 1), rest)
    ensures BelowFrom(a, b, i, D.DiffKids(a, b, i), Under(i, head) + rest)
  {
    var seat := Some(D.Seat(a.id, i, Ids(b.kind.kids)));
    var first, others := D.DiffNode(a.kind.kids[i], b.kind.kids[i], seat), D.DiffKids(a, b, i + 1);
    assert D.DiffKids(a, b, i) == first + others;
    SequenceJoin(i, head, first, rest, others);
    KidsSound(a, b, i, seat, head, first, rest, others);
    KidsAll(a, b, i, seat, head, first, rest, others);
  }

  lemma {:induction false} KidsSound(
    a: Node, b: Node, i: nat, seat: Option<D.Seat>, head: seq<Path>, first: seq<Op>, rest: seq<Path>, others: seq<Op>)
    requires Lined(a, b) && i < |a.kind.kids| == |b.kind.kids| == |Ids(a.kind.kids)|
    requires |head| == |first| && |rest| == |others| && seat == Some(D.Seat(a.id, i, Ids(b.kind.kids)))
    requires forall k | 0 <= k < |first| :: EditAt(a.kind.kids[i], b.kind.kids[i], seat, head[k], first[k])
    requires forall k | 0 <= k < |others| ::
      rest[k] != [] && rest[k][0] >= i + 1 && EditAt(a, b, None, rest[k], others[k])
    ensures var places, script := Under(i, head) + rest, first + others;
      forall k | 0 <= k < |script| ::
        places[k] != [] && places[k][0] >= i && EditAt(a, b, None, places[k], script[k])
  {
    var places, script := Under(i, head) + rest, first + others;
    forall k | 0 <= k < |script|
      ensures places[k] != [] && places[k][0] >= i && EditAt(a, b, None, places[k], script[k])
    {
      if k < |first| {
        EditBelow(a, b, i, head[k], first[k]);
        assert places[k] == [i] + head[k] && script[k] == first[k];
      } else {
        assert places[k] == rest[k - |first|] && script[k] == others[k - |first|];
      }
    }
  }

  lemma {:induction false} KidsAll(
    a: Node, b: Node, i: nat, seat: Option<D.Seat>, head: seq<Path>, first: seq<Op>, rest: seq<Path>, others: seq<Op>)
    requires Lined(a, b) && i < |a.kind.kids| == |b.kind.kids| == |Ids(a.kind.kids)|
    requires |head| == |first| && |rest| == |others| && seat == Some(D.Seat(a.id, i, Ids(b.kind.kids)))
    requires forall p, op | EditAt(a.kind.kids[i], b.kind.kids[i], seat, p, op) :: Listed(head, first, p, op)
    requires forall p, op | EditAt(a, b, None, p, op) && p != [] && p[0] >= i + 1 :: Listed(rest, others, p, op)
    ensures forall p, op | EditAt(a, b, None, p, op) && p != [] && p[0] >= i ::
      Listed(Under(i, head) + rest, first + others, p, op)
  {
    forall p, op | EditAt(a, b, None, p, op) && p != [] && p[0] >= i
      ensures Listed(Under(i, head) + rest, first + others, p, op)
    {
      if p[0] == i {
        assert p == [i] + p[1..];
        EditBelow(a, b, i, p[1..], op);
        ListedFirst(i, head, first, rest, others, p, op);
      } else {
        ListedLater(Under(i, head), first, rest, others, p, op);
      }
    }
  }

  lemma {:induction false} ListedFirst(
    i: nat, head: seq<Path>, first: seq<Op>, rest: seq<Path>, others: seq<Op>, p: Path, op: Op)
    requires |head| == |first| && |rest| == |others| && p != [] && p[0] == i && Listed(head, first, p[1..], op)
    ensures Listed(Under(i, head) + rest, first + others, p, op)
  {
    var k :| 0 <= k < |first| && head[k] == p[1..] && first[k] == op;
    assert p == [i] + p[1..];
    assert (Under(i, head) + rest)[k] == p && (first + others)[k] == op;
  }

  lemma {:induction false} SequenceJoin(i: nat, head: seq<Path>, first: seq<Op>, rest: seq<Path>, others: seq<Op>)
    requires |head| == |first| && |rest| == |others| && InSequence(head, first) && InSequence(rest, others)
    requires forall k | 0 <= k < |rest| :: rest[k] != [] && rest[k][0] > i
    ensures InSequence(Under(i, head) + rest, first + others)
  {
    var places, script := Under(i, head) + rest, first + others;
    forall k, l | 0 <= k < l < |script|
      ensures Precedes(places[k], places[l]) || (places[k] == places[l] && Stage(script[k]) < Stage(script[l]))
    {
      if l < |head| {
        assert places[k][1..] == head[k] && places[l][1..] == head[l];
      } else if k >= |head| {
        assert InSequence(rest, others);
        assert places[k] == rest[k - |head|] && places[l] == rest[l - |head|];
      }
    }
  }

  // The diff of two trees with one root id is every edit between them, each once, in order: a
  // facet edit where nothing else of a node's own differs, a node replaced in place elsewhere.
  lemma {:induction false} DiffIsEdits(a: Node, b: Node) returns (places: seq<Path>)
    requires a.id == b.id
    ensures Edits(a, b, None, D.Diff(a, b), places)
  {
    places := NodeEdits(a, b, None);
  }

  // A tree needs no edit to become itself, and any other at least one.
  lemma {:induction false} EmptyMeansEqual(a: Node, b: Node)
    requires R.Canonical(a) && R.Canonical(b)
    ensures D.Diff(a, b) == [] <==> a == b
  {
    if a.id == b.id {
      SomeEdit(a, b, None);
    }
  }

  lemma {:induction false} SomeEdit(a: Node, b: Node, seat: Option<D.Seat>)
    requires a.id == b.id && R.Canonical(a) && R.Canonical(b)
    ensures D.DiffNode(a, b, seat) == [] <==> a == b
    decreases Size(a), 1, 0
  {
    RulesAre(a, b);
    if a != b && (SameBut(a, b) || Lined(a, b)) {
      if D.FacetEdits(a, b) == [] {
        NoFacetEdit(a, b);
        if !SameBut(a, b) {
          LinedLengths(a, b);
          KidsNotEmpty(a, b, 0);
        }
      }
    }
  }

  lemma {:induction false} NoFacetEdit(a: Node, b: Node)
    requires R.Canonical(a) && R.Canonical(b) && D.FacetEdits(a, b) == []
    ensures a.style == b.style && a.access == b.access && a.tooltip == b.tooltip
  {
    R.StyleEditResult(a, b);
  }

  lemma {:induction false} KidsNotEmpty(a: Node, b: Node, i: nat)
    requires Lined(a, b) && |a.kind.kids| == |b.kind.kids| && i <= |a.kind.kids|
    requires R.Canonical(a) && R.Canonical(b)
    ensures D.DiffKids(a, b, i) == [] <==> a.kind.kids[i..] == b.kind.kids[i..]
    decreases Size(a), 0, |a.kind.kids| - i
  {
    if i < |a.kind.kids| {
      LinedLengths(a, b);
      SlotSizes(a);
      R.CanonicalKid(a, i);
      R.CanonicalKid(b, i);
      assert Slots(a)[i] == a.kind.kids[i];
      SomeEdit(a.kind.kids[i], b.kind.kids[i], Some(D.Seat(a.id, i, Ids(b.kind.kids))));
      KidsNotEmpty(a, b, i + 1);
      NextKid(a, b, i);
    }
  }

  lemma {:induction false} NextKid(a: Node, b: Node, i: nat)
    requires i < |a.kind.kids| == |b.kind.kids|
    ensures D.DiffKids(a, b, i) ==
      D.DiffNode(a.kind.kids[i], b.kind.kids[i], Some(D.Seat(a.id, i, Ids(b.kind.kids)))) + D.DiffKids(a, b, i + 1)
    ensures a.kind.kids[i..] == b.kind.kids[i..] <==>
      a.kind.kids[i] == b.kind.kids[i] && a.kind.kids[i + 1..] == b.kind.kids[i + 1..]
  {
    assert a.kind.kids[i..] == [a.kind.kids[i]] + a.kind.kids[i + 1..];
    assert b.kind.kids[i..] == [b.kind.kids[i]] + b.kind.kids[i + 1..];
  }
}
