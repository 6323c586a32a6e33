// The diff as it runs: one script that the recursion appends to.
module DiffScript {
  import opened Wrappers
  import opened Tree
  import opened Ops
  import D = Diff
  import R = DiffRoundTrip
  import E = DiffEdits

  class Script {
    var ops: seq<Op>

    constructor ()
      ensures ops == []
    {
      ops := [];
    }

    method Append(more: seq<Op>)
      modifies this
      ensures ops == old(ops) + more
    {
      ops := ops + more;
    }
  }

  method DiffNode(a: Node, b: Node, parent: Option<D.Seat>, script: Script)
    modifies script
    ensures script.ops == old(script.ops) + D.DiffNode(a, b, parent)
    decreases Size(a), 1
  {
    if a == b {
      return;
    }
    if D.FacetsOnly(a, b) {
      script.Append(D.FacetEdits(a, b));
      return;
    }
    if D.Recurses(a, b) {
      script.Append(D.FacetEdits(a, b));
      assert |Ids(a.kind.kids)| == |Ids(b.kind.kids)|;
      DiffKids(a, b, script);
      Joined(old(script.ops), D.FacetEdits(a, b), D.DiffKids(a, b, 0));
      return;
    }
    if parent.None? {
      script.Append([ReplaceRoot(b)]);
      return;
    }
    var seat := parent.value;
    script.Append([RemoveNode(a.id)]);
    script.Append([InsertChild(seat.parentId, b)]);
    if seat.position != |seat.siblings| - 1 {
      script.Append([ReorderChildren(seat.parentId, seat.siblings)]);
    }
  }

  // The matched children, each at its own seat.
  method DiffKids(a: Node, b: Node, script: Script)
    requires |a.kind.kids| == |b.kind.kids|
    modifies script
    ensures script.ops == old(script.ops) + D.DiffKids(a, b, 0)
    decreases Size(a), 0
  {
    ghost var before := script.ops;
    for i := 0 to |a.kind.kids|
      invariant script.ops + D.DiffKids(a, b, i) == before + D.DiffKids(a, b, 0)
    {
      KidsStep(a, b, i, script.ops);
      DiffNode(a.kind.kids[i], b.kind.kids[i], Some(D.Seat(a.id, i, Ids(b.kind.kids))), script);
    }
    assert D.DiffKids(a, b, |a.kind.kids|) == [];
    assert script.ops == before + D.DiffKids(a, b, 0);
  }

  lemma {:induction false} Joined(before: seq<Op>, facets: seq<Op>, kids: seq<Op>)
    ensures before + facets + kids == before + (facets + kids)
  {
  }

  lemma {:induction false} KidsStep(a: Node, b: Node, i: nat, ops: seq<Op>)
    requires |a.kind.kids| == |b.kind.kids| && i < |a.kind.kids|
    ensures Size(a.kind.kids[i]) < Size(a)
    ensures ops + D.DiffKids(a, b, i)
         == ops + D.DiffNode(a.kind.kids[i], b.kind.kids[i], Some(D.Seat(a.id, i, Ids(b.kind.kids))))
          + D.DiffKids(a, b, i + 1)
  {
    SlotSizes(a);
    assert Slots(a)[i] == a.kind.kids[i];
    var one := D.DiffNode(a.kind.kids[i], b.kind.kids[i], Some(D.Seat(a.id, i, Ids(b.kind.kids))));
    assert D.DiffKids(a, b, i) == one + D.DiffKids(a, b, i + 1);
    Joined(ops, one, D.DiffKids(a, b, i + 1));
  }

  method Diff(before: Node, after: Node) returns (ops: seq<Op>)
    ensures ops == D.Diff(before, after)
  {
    if before.id != after.id {
      return [ReplaceRoot(after)];
    }
    var script := new Script();
    DiffNode(before, after, None, script);
    ops := script.ops;
  }

  // Two trees as the decoder makes them.
  ghost predicate Diffable(before: Node, after: Node) {
    UniqueIds(before) && UniqueIds(after) && R.Canonical(before) && R.Canonical(after) && WithinLimits(after)
  }

  // An id leaves a seat for one the script replaces earlier.
  ghost predicate Blocked(before: Node, after: Node) {
    before.id == after.id && R.Early(before, after, R.Seats(before, after, true))
  }

  // Every edit between the two, each once and in order; one op as it is, more of them as one
  // batch. Only a tree swapped whole changes the root's id.
  ghost predicate IsBatched(before: Node, after: Node, ops: seq<Op>) {
    if before.id != after.id then ops == [ReplaceRoot(after)]
    else exists script, places :: BatchedAs(before, after, ops, script, places)
  }

  ghost predicate BatchedAs(before: Node, after: Node, ops: seq<Op>, script: seq<Op>, places: seq<Path>) {
    && E.Edits(before, after, None, script, places)
    && ops == if |script| <= 1 then script else [Batch(script)]
  }

  // The script, as one op; applied to the first tree it gives the second, or is refused.
  method DiffBatched(before: Node, after: Node) returns (ops: seq<Op>)
    ensures ops == D.DiffBatched(before, after)
    ensures IsBatched(before, after, ops)
    ensures Diffable(before, after) ==>
      if Blocked(before, after) then ApplyScript(ops, before).Err? else ApplyScript(ops, before) == Ok(after)
  {
    EditsBatched(before, after);
    ops := Diff(before, after);
    if |ops| >= 2 {
      ops := [Batch(ops)];
    }
    Applied(before, after);
  }

  lemma {:induction false} EditsBatched(before: Node, after: Node)
    ensures IsBatched(before, after, D.DiffBatched(before, after))
  {
    if before.id == after.id {
      var places := E.DiffIsEdits(before, after);
      assert BatchedAs(before, after, D.DiffBatched(before, after), D.Diff(before, after), places);
    }
  }

  lemma {:induction false} Applied(before: Node, after: Node)
    ensures Diffable(before, after) ==>
      var ops := D.DiffBatched(before, after);
      if Blocked(before, after) then ApplyScript(ops, before).Err? else ApplyScript(ops, before) == Ok(after)
  {
    if Diffable(before, after) {
      R.RoundTrip(before, after);
    }
  }
}
