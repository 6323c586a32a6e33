// One live connection: a session driven through a channel, with a bounded buffer of the
// frames it pushed for a client that reconnects.
module Connection {
  import opened Wrappers
  import opened Tree
  import Ops
  import opened Driver
  import opened Turns

  datatype Frame = Frame(sequence: nat, ops: seq<Ops.Op>)

  // The transport. `up` says which of its pushes get through, in the order they are made;
  // `delivered` holds the frames that did.
  class Channel {
    const up: nat -> bool
    var pushes: nat
    var delivered: seq<Frame>

    constructor (up: nat -> bool)
      ensures this.up == up && pushes == 0 && delivered == []
    {
      this.up, pushes, delivered := up, 0, [];
    }

    method Push(frame: Frame) returns (ok: bool)
      modifies this
      ensures ok == up(old(pushes)) && pushes == old(pushes) + 1
      ensures delivered == old(delivered) + if ok then [frame] else []
    {
      ok := up(pushes);
      pushes := pushes + 1;
      if ok {
        delivered := delivered + [frame];
      }
    }
  }

  // A client applies the ops of the frames it receives in order.
  function ApplyFrames(tree: Node, frames: seq<Frame>): Ops.Outcome
    decreases |frames|
  {
    if frames == [] then Ok(tree) else
    match Ops.ApplyScript(frames[0].ops, tree)
    case Err(e) => Err(e)
    case Ok(next) => ApplyFrames(next, frames[1..])
  }

  function Advance(frame: Frame, tree: Node): Ops.Outcome {
    Ops.ApplyScript(frame.ops, tree)
  }

  // Frame by frame, each on the tree the one before it led to.
  lemma {:induction false} FramesTurn(tree: Node, frames: seq<Frame>, next: Node)
    ensures ApplyFrames(tree, frames) == Ok(next) <==> GoesThrough(Advance, frames, tree, next)
    decreases |frames|
  {
    if frames == [] {
      NoStep(Advance, tree, next);
    } else {
      assert frames == [frames[0]] + frames[1..];
      FirstStep(Advance, frames[0], frames[1..], tree, next);
      var first := Advance(frames[0], tree);
      if first.Ok? {
        FramesTurn(first.value, frames[1..], next);
      }
    }
  }

  lemma {:induction false} ApplyFramesConcat(tree: Node, front: seq<Frame>, back: seq<Frame>)
    ensures ApplyFrames(tree, front + back) ==
      match ApplyFrames(tree, front) case Err(e) => Err(e) case Ok(t) => ApplyFrames(t, back)
    decreases |front|
  {
    if front == [] {
      assert front + back == back;
    } else {
      assert (front + back)[1..] == front[1..] + back;
      match Ops.ApplyScript(front[0].ops, tree)
      case Err(_) =>
      case Ok(next) => ApplyFramesConcat(next, front[1..], back);
    }
  }

  lemma {:induction false} OneMore(initial: Node, history: seq<Frame>, frame: Frame, tree: Node, next: Node)
    requires ApplyFrames(initial, history) == Ok(tree) && Ops.ApplyScript(frame.ops, tree) == Ok(next)
    ensures ApplyFrames(initial, history + [frame]) == Ok(next)
  {
    ApplyFramesConcat(initial, history, [frame]);
  }

  // Committed ops, pushed, lead on from where the frames before them led; a refusal that
  // pushes nothing leaves the tree where they led.
  lemma {:induction false} Onward(
    initial: Node, before: seq<Frame>, tree: Node, gate: Option<Gate>, ev: Event, answer: Answer, next: Node,
    outcome: Result<seq<Ops.Op>, Reject>, history: seq<Frame>)
    requires GoesThrough(Advance, before, initial, tree)
    requires (next, outcome) in Meanings(tree, gate, ev, answer)
    requires history ==
      if outcome.Err? || outcome.value == [] then before else before + [Frame(|before| + 1, outcome.value)]
    ensures GoesThrough(Advance, history, initial, next)
  {
    FramesTurn(initial, before, tree);
    FramesTurn(initial, history, next);
    if outcome.Ok? {
      ScriptLeads(outcome.value, tree, next);
      if outcome.value != [] {
        OneMore(initial, before, Frame(|before| + 1, outcome.value), tree, next);
      }
    }
  }

  // Frames numbered one after another from a first number.
  ghost predicate Numbered(frames: seq<Frame>, first: nat) {
    forall i | 0 <= i < |frames| :: frames[i].sequence == first + i
  }

  // The buffered frames newer than a sequence.
  function Newer(buffer: seq<Frame>, last: int): seq<Frame> {
    if buffer == [] then []
    else (if buffer[0].sequence > last then [buffer[0]] else []) + Newer(buffer[1..], last)
  }

  lemma {:induction false} NewerIsTail(buffer: seq<Frame>, first: nat, last: int)
    requires Numbered(buffer, first)
    ensures Newer(buffer, last) ==
      buffer[if last < first then 0 else if last - first + 1 > |buffer| then |buffer| else last - first + 1..]
    decreases |buffer|
  {
    if buffer != [] {
      assert Numbered(buffer[1..], first + 1);
      NewerIsTail(buffer[1..], first + 1, last);
    }
  }

  // The last `n` items, or all of them.
  function Tail<T>(s: seq<T>, n: nat): seq<T> {
    if |s| <= n then s else s[|s| - n..]
  }

  class Connection {
    const session: Session
    const channel: Channel
    const bufferCap: nat
    const projectReject: Option<Reject -> seq<Ops.Op>>
    var sequence: nat
    var buffer: seq<Frame>
    ghost var initial: Node
    ghost var history: seq<Frame>

    // The history is every frame pushed so far, numbered from 1; the buffer is its tail.
    // Without a reject projection the history carries the first tree to the session's.
    ghost predicate Valid()
      reads this, session
    {
      && bufferCap > 0
      && |history| == sequence && Numbered(history, 1)
      && buffer == Tail(history, bufferCap)
      && (projectReject.None? ==> GoesThrough(Advance, history, initial, session.tree))
    }

    constructor (session: Session, channel: Channel, bufferCap: nat, projectReject: Option<Reject -> seq<Ops.Op>>)
      requires bufferCap > 0
      ensures Valid() && this.session == session && this.channel == channel && this.bufferCap == bufferCap
      ensures this.projectReject == projectReject && initial == session.tree && history == []
    {
      NoStep(Advance, session.tree, session.tree);
      this.session, this.channel, this.bufferCap, this.projectReject := session, channel, bufferCap, projectReject;
      sequence, buffer := 0, [];
      initial, history := session.tree, [];
    }

    // Append, evicting the oldest frame at capacity.
    method BufferFrame(frame: Frame)
      requires bufferCap > 0 && buffer == Tail(history, bufferCap)
      modifies this`buffer, this`history
      ensures history == old(history) + [frame] && buffer == Tail(history, bufferCap)
    {
      if |buffer| >= bufferCap && |buffer| > 0 {
        buffer := buffer[1..];
      }
      buffer := buffer + [frame];
      history := history + [frame];
    }

    method PushOps(ops: seq<Ops.Op>) returns (ok: bool)
      requires bufferCap > 0 && |history| == sequence && Numbered(history, 1) && buffer == Tail(history, bufferCap)
      modifies this`sequence, this`buffer, this`history, channel
      ensures |history| == sequence && Numbered(history, 1) && buffer == Tail(history, bufferCap)
      ensures history == old(history) + [Frame(sequence, ops)]
      ensures ok == channel.up(old(channel.pushes)) && channel.pushes == old(channel.pushes) + 1
      ensures channel.delivered == old(channel.delivered) + if ok then history[|old(history)|..] else []
    {
      sequence := sequence + 1;
      var frame := Frame(sequence, ops);
      Newest(history, frame);
      BufferFrame(frame);
      ok := channel.Push(frame);
    }

    // No ops push nothing, others one frame, numbered next.
    ghost predicate Pushed(before: seq<Frame>, ops: seq<Ops.Op>)
      reads this
    {
      history == if ops == [] then before else before + [Frame(|before| + 1, ops)]
    }

    method PushAny(ops: seq<Ops.Op>) returns (ok: bool)
      requires bufferCap > 0 && |history| == sequence && Numbered(history, 1) && buffer == Tail(history, bufferCap)
      modifies this`sequence, this`buffer, this`history, channel
      ensures |history| == sequence && Numbered(history, 1) && buffer == Tail(history, bufferCap)
      ensures Pushed(old(history), ops) && (ops == [] ==> ok)
      ensures channel.delivered == old(channel.delivered) + if ok then history[|old(history)|..] else []
    {
      if |ops| == 0 {
        Newest(history, Frame(0, []));
        return true;
      }
      ok := PushOps(ops);
    }

    // The event through the session, and what it answered pushed.
    method Drive(ev: Event, answer: Answer)
      returns (ok: bool, ghost outcome: Result<seq<Ops.Op>, Reject>, ghost pushed: seq<Ops.Op>)
      requires bufferCap > 0 && |history| == sequence && Numbered(history, 1) && buffer == Tail(history, bufferCap)
      modifies this`sequence, this`buffer, this`history, channel, session
      ensures |history| == sequence && Numbered(history, 1) && buffer == Tail(history, bufferCap)
      ensures (session.tree, outcome) in Meanings(old(session.tree), session.gate, ev, answer)
      ensures match outcome
        case Ok(ops) => pushed == ops
        case Err(reject) => pushed == if projectReject.None? then [] else projectReject.value(reject)
      ensures Pushed(old(history), pushed) && (pushed == [] ==> ok)
      ensures channel.delivered == old(channel.delivered) + if ok then history[|old(history)|..] else []
    {
      var r := session.Step(ev, answer);
      outcome := r;
      var ops := if r.Ok? then r.value else if projectReject.None? then [] else projectReject.value(r.error);
      pushed := ops;
      ok := PushAny(ops);
    }

    // One event: a step that commits ops pushes them as the next frame. A refused step
    // pushes nothing, or the ops the host projects from the refusal; either way the
    // session keeps its tree.
    method Handle(ev: Event, answer: Answer)
      returns (ok: bool, ghost outcome: Result<seq<Ops.Op>, Reject>, ghost pushed: seq<Ops.Op>)
      requires Valid()
      modifies this`sequence, this`buffer, this`history, channel, session
      ensures Valid()
      ensures (session.tree, outcome) in Meanings(old(session.tree), session.gate, ev, answer)
      ensures match outcome
        case Ok(ops) => pushed == ops
        case Err(reject) => pushed == if projectReject.None? then [] else projectReject.value(reject)
      ensures Pushed(old(history), pushed) && (pushed == [] ==> ok)
      ensures channel.delivered == old(channel.delivered) + if ok then history[|old(history)|..] else []
    {
      ghost var before, tree := history, session.tree;
      ok, outcome, pushed := Drive(ev, answer);
      if projectReject.None? {
        Onward(initial, before, tree, session.gate, ev, answer, session.tree, outcome, history);
      }
    }

    // Push again every buffered frame newer than `lastSeq`, up to the first failure.
    method Resync(lastSeq: int) returns (replayed: nat, ok: bool)
      requires Valid()
      modifies channel
      ensures Valid()
      ensures replayed <= |Newer(buffer, lastSeq)| && (ok <==> replayed == |Newer(buffer, lastSeq)|)
      ensures channel.delivered == old(channel.delivered) + Newer(buffer, lastSeq)[..replayed]
      ensures (forall i | old(channel.pushes) <= i :: channel.up(i)) ==> ok
    {
      replayed := 0;
      ghost var all := Newer(buffer, lastSeq);
      ghost var before := channel.delivered;
      for i := 0 to |buffer|
        invariant replayed <= |all| && all[replayed..] == Newer(buffer[i..], lastSeq)
        invariant channel.delivered == before + all[..replayed]
        invariant channel.pushes >= old(channel.pushes)
      {
        NewerStep(buffer, i, lastSeq);
        if buffer[i].sequence > lastSeq {
          assert all[replayed] == all[replayed..][0] == buffer[i];
          var pushed := channel.Push(buffer[i]);
          if !pushed {
            return replayed, false;
          }
          TakeMore(before, all, replayed);
          replayed := replayed + 1;
        }
      }
      ok := true;
    }
  }

  lemma {:induction false} Newest(history: seq<Frame>, frame: Frame)
    ensures (history + [frame])[|history|..] == [frame] && (history + [frame])[|history| + 1..] == []
    ensures history + [] == history && history[|history|..] == []
  {
  }

  lemma {:induction false} NewerStep(buffer: seq<Frame>, i: nat, last: int)
    requires i < |buffer|
    ensures Newer(buffer[i..], last)
         == (if buffer[i].sequence > last then [buffer[i]] else []) + Newer(buffer[i + 1..], last)
    ensures buffer[i].sequence > last ==> Newer(buffer[i..], last)[1..] == Newer(buffer[i + 1..], last)
    ensures buffer[|buffer|..] == []
  {
    assert buffer[i..][1..] == buffer[i + 1..];
  }

  lemma {:induction false} TakeMore(before: seq<Frame>, all: seq<Frame>, n: nat)
    requires n < |all|
    ensures before + all[..n] + [all[n]] == before + all[..n + 1]
    ensures all[n..][1..] == all[n + 1..]
  {
    assert all[..n + 1] == all[..n] + [all[n]];
  }

  // What a resync carries, against the whole history: exactly the frames after `k`, in
  // order and once each, precisely for the clients within the retained window.
  lemma {:induction false} ResyncWindow(history: seq<Frame>, bufferCap: nat, k: nat)
    requires bufferCap > 0 && Numbered(history, 1) && k <= |history|
    ensures Newer(Tail(history, bufferCap), k) == history[k..] <==> |history| - k <= bufferCap
    ensures |history| - k > bufferCap ==> Newer(Tail(history, bufferCap), k) == Tail(history, bufferCap)
  {
    var cut := if |history| <= bufferCap then 0 else |history| - bufferCap;
    var kept := history[cut..];
    assert Tail(history, bufferCap) == kept && Numbered(kept, cut + 1);
    NewerIsTail(kept, cut + 1, k);
    if k >= cut {
      DropDrop(history, cut, k);
      assert Newer(kept, k) == kept[k - cut..];
    } else {
      assert Newer(kept, k) == kept && |kept| < |history| - k;
    }
  }

  lemma {:induction false} DropDrop(history: seq<Frame>, cut: nat, k: nat)
    requires cut <= k <= |history|
    ensures history[cut..][k - cut..] == history[k..]
  {
  }

  // A client that applied the first `k` frames and reconnects from within the window ends
  // at the tree the whole history leads to.
  lemma {:induction false} ResyncCatchesUp(initial: Node, history: seq<Frame>, bufferCap: nat, k: nat, client: Node)
    requires bufferCap > 0 && Numbered(history, 1) && k <= |history| && |history| - k <= bufferCap
    requires ApplyFrames(initial, history[..k]) == Ok(client)
    ensures ApplyFrames(client, Newer(Tail(history, bufferCap), k)) == ApplyFrames(initial, history)
  {
    var first, rest := history[..k], history[k..];
    assert first + rest == history;
    ApplyFramesConcat(initial, first, rest);
    assert Newer(Tail(history, bufferCap), k) == rest by {
      ResyncWindow(history, bufferCap, k);
    }
  }

  // The client side of a lossless reconnection.
  method Reconnect(c: Connection, k: nat, client: Node) returns (caughtUp: Ops.Outcome)
    requires c.Valid() && c.projectReject.None?
    requires k <= c.sequence && c.sequence - k <= c.bufferCap && ApplyFrames(c.initial, c.history[..k]) == Ok(client)
    requires forall i | c.channel.pushes <= i :: c.channel.up(i)
    modifies c.channel
    ensures c.channel.delivered == old(c.channel.delivered) + c.history[k..]
    ensures caughtUp == Ok(c.session.tree)
  {
    var before := |c.channel.delivered|;
    var replayed, ok := c.Resync(k);
    ResyncWindow(c.history, c.bufferCap, k);
    FramesTurn(c.initial, c.history, c.session.tree);
    ResyncCatchesUp(c.initial, c.history, c.bufferCap, k, client);
    caughtUp := ApplyFrames(client, c.channel.delivered[before..]);
  }
}
