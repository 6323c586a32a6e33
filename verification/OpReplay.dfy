// Replaying a log through the apply engine, and applying with persistence.
module OpReplay {
  import opened Wrappers
  import opened Tree
  import Ops
  import opened OpChain
  import opened OpSink

  // Fold the records through the apply engine.
  function ApplyAll(tree: Node, records: seq<OpRecord<Ops.Op>>): Ops.Outcome
    decreases |records|
  {
    if records == [] then Ok(tree) else
    match Ops.Apply(records[0].op, tree)
    case Err(e) => Err(e)
    case Ok(next) => ApplyAll(next, records[1..])
  }

  lemma {:induction false} ApplyAllSnoc(tree: Node, records: seq<OpRecord<Ops.Op>>, last: OpRecord<Ops.Op>)
    ensures ApplyAll(tree, records + [last]) ==
      match ApplyAll(tree, records) case Err(e) => Err(e) case Ok(t) => Ops.Apply(last.op, t)
    decreases |records|
  {
    if records == [] {
      assert [] + [last] == [last];
    } else {
      assert (records + [last])[1..] == records[1..] + [last];
      match Ops.Apply(records[0].op, tree)
      case Err(_) =>
      case Ok(next) => ApplyAllSnoc(next, records[1..], last);
    }
  }

  // The first record the engine refuses: all before it apply.
  ghost predicate RefusedAt(initial: Node, records: seq<OpRecord<Ops.Op>>, i: int) {
    && 0 <= i < |records| && ApplyAll(initial, records[..i]).Ok?
    && Ops.Apply(records[i].op, ApplyAll(initial, records[..i]).value).Err?
  }

  lemma {:induction false} ApplyAllNext(initial: Node, records: seq<OpRecord<Ops.Op>>, i: nat)
    requires i < |records| && ApplyAll(initial, records[..i]).Ok?
    ensures ApplyAll(initial, records[..i + 1]) == Ops.Apply(records[i].op, ApplyAll(initial, records[..i]).value)
  {
    assert records[..i + 1] == records[..i] + [records[i]];
    ApplyAllSnoc(initial, records[..i], records[i]);
  }

  method ApplyTo(initial: Node, records: seq<OpRecord<Ops.Op>>) returns (r: Ops.Outcome, failedAt: Option<int>)
    ensures r == ApplyAll(initial, records)
    ensures r.Ok? <==> failedAt.None?
    ensures failedAt.Some? ==> exists i ::
      RefusedAt(initial, records, i) && failedAt.value == records[i].sequence
  {
    var tree := initial;
    for i := 0 to |records|
      invariant ApplyAll(initial, records) == ApplyAll(tree, records[i..])
      invariant ApplyAll(initial, records[..i]) == Ok(tree)
    {
      assert records[i..][1..] == records[i + 1..];
      ApplyAllNext(initial, records, i);
      var applied := Ops.Apply(records[i].op, tree);
      if applied.Err? {
        assert RefusedAt(initial, records, i);
        return applied, Some(records[i].sequence);
      }
      tree := applied.value;
    }
    r, failedAt := Ok(tree), None;
  }

  lemma {:induction false} LogReplays(
    link: Link<Ops.Op>, ctx: PersistContext, op: Ops.Op, initial: Node, stream: seq<OpRecord<Ops.Op>>, tree: Node,
    r: Ops.Outcome)
    requires Ops.Apply(op, tree) == r
    ensures ApplyAll(initial, stream) == Ok(tree) ==>
      ApplyAll(initial, stream + [NextRecord(link, ctx, op, stream)]) == r
  {
    ApplyAllSnoc(initial, stream, NextRecord(link, ctx, op, stream));
  }

  // Apply, then persist; a lost append does not change the answer. The log of a session
  // that is its only writer replays, from the session's first tree, to the session's tree.
  method ApplyAndPersist(
    sink: InMemorySink<Ops.Op>, link: Link<Ops.Op>, ctx: PersistContext, op: Ops.Op, tree: Node,
    others: Others<Ops.Op>, ghost initial: Node)
    returns (r: Ops.Outcome, ghost landed: seq<OpRecord<Ops.Op>>, ghost logged: seq<OpRecord<Ops.Op>>)
    requires sink.Valid()
    modifies sink
    ensures sink.Valid() && r == Ops.Apply(op, tree)
    ensures r.Err? ==> sink.records == old(sink.records)
    ensures sink.Stream(ctx.streamId) == old(sink.Stream(ctx.streamId)) + landed + logged
    ensures |logged| <= 1 && forall record | record in logged :: Carries(link, ctx, op, record)
    ensures (landed != [] ==> Busy(others)) && (r.Ok? && landed == [] ==> |logged| == 1)
    ensures ApplyAll(initial, old(sink.Stream(ctx.streamId))) == Ok(tree) && r.Ok? && landed == [] ==>
      ApplyAll(initial, sink.Stream(ctx.streamId)) == r
  {
    landed, logged := [], [];
    r := Ops.Apply(op, tree);
    ghost var stream := sink.Stream(ctx.streamId);
    assert stream + [] + [] == stream;
    if r.Ok? {
      var appended;
      appended, landed := AppendNext(sink, link, ctx, op, others);
      logged := if appended.Ok? then [appended.value] else [];
      if landed == [] {
        assert stream + [] == stream;
        assert sink.Stream(ctx.streamId) == stream + [appended.value];
        LogReplays(link, ctx, op, initial, stream, tree, r);
      }
    }
  }

  lemma {:induction false} ApplyAllConcat(tree: Node, front: seq<OpRecord<Ops.Op>>, back: seq<OpRecord<Ops.Op>>)
    ensures ApplyAll(tree, front + back) ==
      match ApplyAll(tree, front) case Err(e) => Err(e) case Ok(t) => ApplyAll(t, back)
    decreases |front|
  {
    if front == [] {
      assert front + back == back;
    } else {
      assert (front + back)[1..] == front[1..] + back;
      match Ops.Apply(front[0].op, tree)
      case Err(_) =>
      case Ok(next) => ApplyAllConcat(next, front[1..], back);
    }
  }

  method ReplayStream(sink: InMemorySink<Ops.Op>, streamId: string, initialTree: Node, from: int, to: int)
    returns (r: Ops.Outcome, failedAt: Option<int>)
    ensures var stream := sink.Stream(streamId);
      var records := ReplayOf(stream, from, if to <= 0 then Latest(stream) else to);
      && r == ApplyAll(initialTree, records) && (r.Ok? <==> failedAt.None?)
      && (failedAt.Some? ==> exists i ::
            RefusedAt(initialTree, records, i) && failedAt.value == records[i].sequence)
  {
    var upTo := to;
    if upTo <= 0 {
      upTo := sink.LatestSequence(streamId);
    }
    var records := sink.Replay(streamId, from, upTo);
    r, failedAt := ApplyTo(initialTree, records);
  }

  // Resuming from a checkpoint's snapshot, one past its sequence, ends where a full
  // replay ends, refusals included.
  lemma {:induction false} CheckpointResume(
    link: Link<Ops.Op>, stream: seq<OpRecord<Ops.Op>>, initialTree: Node, checkpoint: nat, snapshot: Node)
    requires Chained(link, stream) && checkpoint <= |stream|
    requires ApplyAll(initialTree, stream[..checkpoint]) == Ok(snapshot)
    ensures ApplyAll(snapshot, ReplayOf(stream, checkpoint + 1, Latest(stream)))
         == ApplyAll(initialTree, ReplayOf(stream, 1, Latest(stream)))
         == ApplyAll(initialTree, stream)
  {
    ReplayTail(link, stream, checkpoint);
    ReplayTail(link, stream, 0);
    assert stream[0..] == stream && stream[..checkpoint] + stream[checkpoint..] == stream;
    ApplyAllConcat(initialTree, stream[..checkpoint], stream[checkpoint..]);
  }
}
