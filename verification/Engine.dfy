// The engine's loops: a batch folded over a running state, and the two count-map checks.
module Engine {
  import opened Wrappers
  import opened Tree
  import opened Ops
  import ApplySafety
  import W = OpWrites

  // How often each id occurs so far.
  method CountIds(ids: seq<Id>) returns (counts: map<Id, nat>)
    ensures forall x :: multiset(ids)[x] == if x in counts then counts[x] else 0
  {
    counts := map[];
    for i := 0 to |ids|
      invariant forall x :: multiset(ids[..i])[x] == if x in counts then counts[x] else 0
    {
      assert ids[..i + 1] == ids[..i] + [ids[i]];
      counts := counts[ids[i] := (if ids[i] in counts then counts[ids[i]] else 0) + 1];
    }
    assert ids[..|ids|] == ids;
  }

  // Whether one of the ids was counted more than once.
  method AnyRepeated(ids: seq<Id>, counts: map<Id, nat>) returns (found: bool)
    ensures found <==> exists x | x in ids :: x in counts && counts[x] > 1
  {
    for i := 0 to |ids|
      invariant forall k | 0 <= k < i :: !(ids[k] in counts && counts[ids[k]] > 1)
    {
      if ids[i] in counts && counts[ids[i]] > 1 {
        return true;
      }
    }
    found := false;
  }

  // No id the op installed is held twice by the result.
  method CheckInstalledIds(installed: seq<Node>, result: Node) returns (ok: bool)
    ensures ok <==> !InstallsDuplicate(installed, result)
  {
    if |installed| == 0 {
      AllClear(installed, result);
      return true;
    }
    var counts := CountIds(AllIds(result));
    for i := 0 to |installed|
      invariant forall k | 0 <= k < i :: Clear(installed[k], result)
    {
      var clear := IsClear(installed[i], result, counts);
      if !clear {
        NotClear(installed, i, result);
        return false;
      }
    }
    AllClear(installed, result);
    ok := true;
  }

  method IsClear(n: Node, result: Node, counts: map<Id, nat>) returns (clear: bool)
    requires forall x :: multiset(AllIds(result))[x] == if x in counts then counts[x] else 0
    ensures clear <==> Clear(n, result)
  {
    var repeated := AnyRepeated(AllIds(n), counts);
    ClearIs(n, result, counts);
    clear := !repeated;
  }

  // None of a subtree's ids is held twice by the result.
  ghost predicate Clear(n: Node, result: Node) {
    forall x | x in AllIds(n) :: Occ(x, result) <= 1
  }

  lemma {:induction false} ClearIs(n: Node, result: Node, counts: map<Id, nat>)
    requires forall x :: multiset(AllIds(result))[x] == if x in counts then counts[x] else 0
    ensures Clear(n, result) <==> !exists x | x in AllIds(n) :: x in counts && counts[x] > 1
  {
    forall x ensures Occ(x, result) <= 1 <==> !(x in counts && counts[x] > 1) {
      OccIds(x, result);
    }
  }

  lemma {:induction false} NotClear(installed: seq<Node>, i: nat, result: Node)
    requires i < |installed| && !Clear(installed[i], result)
    ensures InstallsDuplicate(installed, result)
  {
    var x :| x in AllIds(installed[i]) && Occ(x, result) > 1;
  }

  lemma {:induction false} AllClear(installed: seq<Node>, result: Node)
    requires forall k | 0 <= k < |installed| :: Clear(installed[k], result)
    ensures !InstallsDuplicate(installed, result)
  {
    forall k, x | 0 <= k < |installed| && x in AllIds(installed[k]) ensures Occ(x, result) <= 1 {
      assert Clear(installed[k], result);
    }
  }

  // The order names every child id exactly as often as the children hold it.
  method SameIds(children: seq<Node>, order: seq<Id>) returns (same: bool)
    ensures same <==> SameIdMultiset(children, order)
  {
    var have := multiset(Ids(children));
    if |children| != |order| {
      LengthsDiffer(Ids(children), order);
      return false;
    }
    var counts := CountIds(Ids(children));
    for i := 0 to |order|
      invariant forall x :: (if x in counts then counts[x] else 0) + multiset(order[..i])[x] == have[x]
    {
      var left := if order[i] in counts then counts[order[i]] else 0;
      assert order[..i + 1] == order[..i] + [order[i]];
      if left == 0 {
        OverCounted(order, i, have);
        return false;
      }
      counts := counts[order[i] := left - 1];
    }
    assert order[..|order|] == order;
    WithinAndAsMany(multiset(order), have);
    same := true;
  }

  lemma {:induction false} LengthsDiffer(s: seq<Id>, t: seq<Id>)
    requires |s| != |t|
    ensures multiset(s) != multiset(t)
  {
    assert |multiset(s)| == |s| && |multiset(t)| == |t|;
  }

  lemma {:induction false} OverCounted(order: seq<Id>, i: nat, have: multiset<Id>)
    requires i < |order| && multiset(order[..i])[order[i]] == have[order[i]]
    ensures multiset(order) != have
  {
    assert order == order[..i] + [order[i]] + order[i + 1..];
  }

  lemma {:induction false} WithinAndAsMany(a: multiset<Id>, b: multiset<Id>)
    requires |a| == |b| && forall x :: a[x] <= b[x]
    ensures a == b
  {
    assert a <= b;
    assert |b - a| == |b| - |a|;
    assert b == a + (b - a);
  }

  // One walk yielding both figures.
  method TreeMetrics(n: Node) returns (depth: nat, count: nat)
    ensures depth == Depth(n) && count == Size(n)
    decreases Size(n)
  {
    depth, count := 1, 1;
    var slots := Slots(n);
    SlotSizes(n);
    for i := 0 to |slots|
      invariant count + SizeSeq(slots[i..]) == Size(n)
      invariant depth >= 1
      invariant DepthSeq(slots) == if depth - 1 > DepthSeq(slots[i..]) then depth - 1 else DepthSeq(slots[i..])
    {
      assert slots[i..][0] == slots[i] && slots[i..][1..] == slots[i + 1..];
      var d, c := TreeMetrics(slots[i]);
      count := count + c;
      if d + 1 > depth {
        depth := d + 1;
      }
    }
    assert slots[|slots|..] == [];
  }

  method CheckTreeLimits(tree: Node) returns (ok: bool)
    ensures ok <==> WithinLimits(tree)
    ensures ok <==> Depth(tree) <= 24 && Size(tree) <= 100000
  {
    var depth, count := TreeMetrics(tree);
    ok := depth <= MAX_NODE_DEPTH && count <= MAX_NODES;
  }

  // The reducer; a batch is a loop over a running state, all or nothing.
  method Reduce(op: Op, root: Node) returns (r: Outcome)
    ensures r == ApplyOne(op, root)
    decreases op
  {
    if !op.Batch? {
      return ApplyOne(op, root);
    }
    var state := root;
    for i := 0 to |op.ops|
      invariant ApplySeq(op.ops, 0, root) == ApplySeq(op.ops[i..], i, state)
    {
      assert op.ops[i..][1..] == op.ops[i + 1..];
      var next := Reduce(op.ops[i], state);
      if next.Err? {
        return Err(ApplyError(BatchAborted, Some(i)));
      }
      state := next.value;
    }
    r := Ok(state);
  }

  // The guarded engine.
  method Run(op: Op, tree: Node) returns (r: Outcome)
    ensures r == Apply(op, tree)
    ensures ApplySafety.WellFormed(tree) ==> W.Answers(op, tree, r)
  {
    if ApplySafety.WellFormed(tree) {
      W.EngineAnswers(op, tree);
    }
    r := Reduce(op, tree);
    if r.Err? {
      return;
    }
    if OpCanGrow(op) {
      var within := CheckTreeLimits(r.value);
      if !within {
        return Fail(LimitExceeded);
      }
    }
    var ok := CheckInstalledIds(InsertedNodes(op), r.value);
    if !ok {
      return Fail(DuplicateNodeId);
    }
  }
}
