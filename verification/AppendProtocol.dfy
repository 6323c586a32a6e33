// Any number of concurrent appenders on one sink. Each call reads the head, reads the
// latest sequence, then compares and appends, retrying a stale head; every one of these
// is a single step, and any step of any call may come next.
module AppendProtocol {
  import opened Wrappers
  import opened OpChain
  import opened OpSink

  // Where a call stands. The lengths and the position are history: the stream's length
  // when the head was read, when the sequence was read, and where the record landed.
  datatype Phase<O> =
    | Ready
    | SawHead(head: Hash, at: nat)
    | SawSequence(head: Hash, at: nat, seen: nat, sequence: int)
    | Landed(record: OpRecord<O>, position: nat)
    | Refused(error: SinkError)

  datatype Call<O> = Call(ctx: PersistContext, op: O, began: nat, attempt: nat, phase: Phase<O>)

  // `writers` is history: which call appended each record of a stream.
  datatype State<O> = State(
    streams: map<string, seq<OpRecord<O>>>, writers: map<string, seq<nat>>, calls: map<nat, Call<O>>)

  datatype Step<O> =
    | Begin(call: nat, ctx: PersistContext, op: O)
    | ReadHead(call: nat)
    | ReadSequence(call: nat)
    | Compare(call: nat)

  function At<V>(m: map<string, seq<V>>, s: string): seq<V> {
    if s in m then m[s] else []
  }

  function StreamOf<O>(st: State<O>, c: Call<O>): seq<OpRecord<O>> {
    At(st.streams, c.ctx.streamId)
  }

  function Start<O>(): State<O> {
    State(map[], map[], map[])
  }

  function SetCall<O>(st: State<O>, t: nat, c: Call<O>): State<O> {
    st.(calls := st.calls[t := c])
  }

  function Compared<O>(link: Link<O>, st: State<O>, t: nat, c: Call<O>): State<O>
    requires c.phase.SawSequence?
  {
    var stream := StreamOf(st, c);
    var record := BuildRecord(link, c.ctx, c.op, c.phase.head, c.phase.sequence);
    match CompareOutcome(stream, record, c.phase.head)
    case None =>
      State(
        st.streams[c.ctx.streamId := stream + [record]],
        st.writers[c.ctx.streamId := At(st.writers, c.ctx.streamId) + [t]],
        st.calls[t := c.(phase := Landed(record, |stream|))])
    case Some(e) =>
      if !e.StaleHead? then SetCall(st, t, c.(phase := Refused(e)))
      else
        SetCall(st, t, c.(
          attempt := c.attempt + 1,
          phase := if c.attempt + 1 < MAX_APPEND_ATTEMPTS then Ready else Refused(e)))
  }

  // A step that is not enabled changes nothing.
  function Take<O>(link: Link<O>, st: State<O>, step: Step<O>): State<O> {
    if step.Begin? then
      if step.call in st.calls then st
      else SetCall(st, step.call, Call(step.ctx, step.op, |At(st.streams, step.ctx.streamId)|, 0, Ready))
    else if step.call !in st.calls then st
    else
      var c := st.calls[step.call];
      var stream := StreamOf(st, c);
      match step
      case ReadHead(t) =>
        if !c.phase.Ready? then st else SetCall(st, t, c.(phase := SawHead(HeadOf(stream), |stream|)))
      case ReadSequence(t) =>
        if !c.phase.SawHead? then st
        else SetCall(st, t, c.(phase := SawSequence(c.phase.head, c.phase.at, |stream|, Latest(stream) + 1)))
      case Compare(t) =>
        if !c.phase.SawSequence? then st else Compared(link, st, t, c)
      case Begin(_, _, _) => st
  }

  function Run<O>(link: Link<O>, steps: seq<Step<O>>): State<O> {
    if steps == [] then Start() else
    Take(link, Run(link, steps[..|steps| - 1]), steps[|steps| - 1])
  }

  // -- What every run keeps, whatever the hash -------------------------------

  ghost predicate CallOk<O>(st: State<O>, t: nat)
    requires t in st.calls
  {
    var c := st.calls[t];
    var stream := StreamOf(st, c);
    && c.began + c.attempt <= |stream|
    && match c.phase
       case Ready => c.attempt < MAX_APPEND_ATTEMPTS
       case SawHead(head, at) =>
         && c.attempt < MAX_APPEND_ATTEMPTS
         && c.began + c.attempt <= at <= |stream| && head == HeadOf(stream[..at])
       case SawSequence(head, at, seen, sequence) =>
         && c.attempt < MAX_APPEND_ATTEMPTS
         && c.began + c.attempt <= at <= seen <= |stream| && head == HeadOf(stream[..at])
         && sequence == Latest(stream[..seen]) + 1
       case Landed(record, position) =>
         && c.began + c.attempt <= position < |stream| == |At(st.writers, c.ctx.streamId)|
         && stream[position] == record && At(st.writers, c.ctx.streamId)[position] == t
       case Refused(e) => e.StaleHead? ==> c.attempt == MAX_APPEND_ATTEMPTS
  }

  ghost predicate WriterOk<O>(st: State<O>, s: string, i: nat)
    requires i < |At(st.writers, s)| == |At(st.streams, s)|
  {
    var t := At(st.writers, s)[i];
    t in st.calls && st.calls[t].ctx.streamId == s && st.calls[t].phase == Landed(At(st.streams, s)[i], i)
  }

  ghost predicate Books<O>(st: State<O>) {
    && (forall t | t in st.calls :: CallOk(st, t))
    && (forall s :: |At(st.writers, s)| == |At(st.streams, s)|)
    && (forall s, i | 0 <= i < |At(st.writers, s)| :: WriterOk(st, s, i))
  }

  // A call that did not move keeps its facts while its stream only grows.
  lemma {:induction false} CallStays<O>(st: State<O>, next: State<O>, t: nat)
    requires t in st.calls && t in next.calls && next.calls[t] == st.calls[t]
    requires CallOk(st, t)
    requires var s := st.calls[t].ctx.streamId;
      At(st.streams, s) <= At(next.streams, s) && At(st.writers, s) <= At(next.writers, s)
      && |At(next.streams, s)| == |At(next.writers, s)|
    ensures CallOk(next, t)
  {
    var c := st.calls[t];
    var stream, grown := StreamOf(st, c), StreamOf(next, c);
    match c.phase
    case SawHead(_, at) => assert grown[..at] == stream[..at];
    case SawSequence(_, at, seen, _) => assert grown[..at] == stream[..at] && grown[..seen] == stream[..seen];
    case _ =>
  }

  lemma {:induction false} QuietBooks<O>(st: State<O>, t: nat, c: Call<O>)
    requires Books(st) && CallOk(SetCall(st, t, c), t) && !c.phase.Landed?
    requires t in st.calls ==> !st.calls[t].phase.Landed?
    ensures Books(SetCall(st, t, c))
  {
    var next := SetCall(st, t, c);
    forall u | u in next.calls ensures CallOk(next, u) {
      if u != t { CallStays(st, next, u); }
    }
    forall s, i | 0 <= i < |At(next.writers, s)| ensures WriterOk(next, s, i) {
      assert WriterOk(st, s, i);
    }
  }

  lemma {:induction false} LandedBooks<O>(link: Link<O>, st: State<O>, t: nat)
    requires Books(st) && t in st.calls && st.calls[t].phase.SawSequence?
    requires var c := st.calls[t];
      var record := BuildRecord(link, c.ctx, c.op, c.phase.head, c.phase.sequence);
      CompareOutcome(StreamOf(st, c), record, c.phase.head).None?
    ensures Books(Compared(link, st, t, st.calls[t]))
  {
    var c := st.calls[t];
    var next := Compared(link, st, t, c);
    assert CallOk(st, t);
    forall u | u in next.calls ensures CallOk(next, u) {
      if u != t {
        assert CallOk(st, u);
        CallStays(st, next, u);
      }
    }
    LandedWriters(link, st, t);
  }

  lemma {:induction false} LandedWriters<O>(link: Link<O>, st: State<O>, t: nat)
    requires Books(st) && t in st.calls && st.calls[t].phase.SawSequence?
    requires var c := st.calls[t];
      var record := BuildRecord(link, c.ctx, c.op, c.phase.head, c.phase.sequence);
      CompareOutcome(StreamOf(st, c), record, c.phase.head).None?
    ensures var next := Compared(link, st, t, st.calls[t]);
      && (forall s :: |At(next.writers, s)| == |At(next.streams, s)|)
      && forall s, i | 0 <= i < |At(next.writers, s)| :: WriterOk(next, s, i)
  {
    var next := Compared(link, st, t, st.calls[t]);
    forall s ensures |At(next.writers, s)| == |At(next.streams, s)| {
      assert |At(st.writers, s)| == |At(st.streams, s)|;
    }
    forall s, i | 0 <= i < |At(next.writers, s)| ensures WriterOk(next, s, i) {
      if i < |At(st.writers, s)| { assert WriterOk(st, s, i); }
    }
  }

  // A stale head means somebody landed since the head was read.
  lemma {:induction false} StaleMeansForeign<O>(link: Link<O>, st: State<O>, t: nat)
    requires Books(st) && t in st.calls && st.calls[t].phase.SawSequence?
    requires HeadOf(StreamOf(st, st.calls[t])) != st.calls[t].phase.head
    ensures st.calls[t].began + st.calls[t].attempt + 1 <= |StreamOf(st, st.calls[t])|
  {
    assert CallOk(st, t);
    var c := st.calls[t];
    var stream := StreamOf(st, c);
    assert stream[..|stream|] == stream;
  }

  lemma {:induction false} TakeKeepsBooks<O>(link: Link<O>, st: State<O>, step: Step<O>)
    requires Books(st)
    ensures Books(Take(link, st, step))
  {
    var next := Take(link, st, step);
    if next != st {
      var t := step.call;
      if !step.Begin? { assert CallOk(st, t); }
      if step.Compare? {
        CompareKeepsBooks(link, st, t);
      } else {
        var c := next.calls[t];
        var stream := StreamOf(st, c);
        assert stream[..|stream|] == stream;
        QuietBooks(st, t, c);
      }
    }
  }

  lemma {:induction false} CompareKeepsBooks<O>(link: Link<O>, st: State<O>, t: nat)
    requires Books(st) && t in st.calls && st.calls[t].phase.SawSequence?
    ensures Books(Compared(link, st, t, st.calls[t]))
  {
    var c := st.calls[t];
    assert CallOk(st, t);
    var record := BuildRecord(link, c.ctx, c.op, c.phase.head, c.phase.sequence);
    match CompareOutcome(StreamOf(st, c), record, c.phase.head)
    case None => LandedBooks(link, st, t);
    case Some(e) =>
      var next := Compared(link, st, t, c);
      if e.StaleHead? { StaleMeansForeign(link, st, t); }
      QuietBooks(st, t, next.calls[t]);
  }

  lemma {:induction false} RunKeepsBooks<O>(link: Link<O>, steps: seq<Step<O>>)
    ensures Books(Run(link, steps))
    decreases |steps|
  {
    if steps != [] {
      RunKeepsBooks(link, steps[..|steps| - 1]);
      TakeKeepsBooks(link, Run(link, steps[..|steps| - 1]), steps[|steps| - 1]);
    }
  }

  // A call is the one begun under its number, and what it landed tells of it.
  ghost predicate Told<O>(link: Link<O>, steps: seq<Step<O>>, t: nat, c: Call<O>) {
    && Begin(t, c.ctx, c.op) in steps
    && (c.phase.Landed? ==> Carries(link, c.ctx, c.op, c.phase.record))
  }

  lemma {:induction false} RunTells<O>(link: Link<O>, steps: seq<Step<O>>)
    ensures forall t | t in Run(link, steps).calls :: Told(link, steps, t, Run(link, steps).calls[t])
    decreases |steps|
  {
    if steps != [] {
      var front, step := steps[..|steps| - 1], steps[|steps| - 1];
      RunTells(link, front);
      assert steps == front + [step];
      forall t | t in Run(link, steps).calls ensures Told(link, steps, t, Run(link, steps).calls[t]) {
        if t in Run(link, front).calls {
          assert Told(link, front, t, Run(link, front).calls[t]);
        }
      }
    }
  }

  // Each record of a stream was appended by exactly one call, which answered with it, and
  // carries what that call was begun with; a call that was refused appended nothing.
  lemma {:induction false} AppendsAreExact<O>(link: Link<O>, steps: seq<Step<O>>, t: nat)
    ensures forall s :: |At(Run(link, steps).writers, s)| == |At(Run(link, steps).streams, s)|
    ensures var st := Run(link, steps);
      t in st.calls ==>
        var c := st.calls[t];
        var log := At(st.writers, c.ctx.streamId);
        && Begin(t, c.ctx, c.op) in steps
        && (forall s, i | 0 <= i < |At(st.writers, s)| :: At(st.writers, s)[i] == t ==>
              s == c.ctx.streamId && c.phase == Landed(At(st.streams, s)[i], i))
        && (c.phase.Landed? ==>
              c.phase.position < |log| && log[c.phase.position] == t
              && StreamOf(st, c)[c.phase.position] == c.phase.record
              && Carries(link, c.ctx, c.op, c.phase.record))
  {
    RunKeepsBooks(link, steps);
    RunTells(link, steps);
    var st := Run(link, steps);
    if t in st.calls {
      assert CallOk(st, t) && Told(link, steps, t, st.calls[t]);
      var own := st.calls[t].ctx.streamId;
      assert |At(st.writers, own)| == |At(st.streams, own)|;
      forall s, i | 0 <= i < |At(st.writers, s)|
        ensures At(st.writers, s)[i] == t ==>
          s == own && |At(st.streams, s)| > i && st.calls[t].phase == Landed(At(st.streams, s)[i], i)
      {
        assert WriterOk(st, s, i);
      }
    }
  }

  // A call whose next three steps no other call interrupts lands, right after what the
  // stream held.
  lemma {:induction false} UndisturbedLands<O>(link: Link<O>, steps: seq<Step<O>>, t: nat)
    requires t in Run(link, steps).calls && Run(link, steps).calls[t].phase.Ready?
    ensures var st, done := Run(link, steps), Run(link, steps + [ReadHead(t), ReadSequence(t), Compare(t)]);
      var c := st.calls[t];
      t in done.calls && done.calls[t].phase.Landed? &&
        var record := done.calls[t].phase.record;
        && done == State(
             st.streams[c.ctx.streamId := StreamOf(st, c) + [record]],
             st.writers[c.ctx.streamId := At(st.writers, c.ctx.streamId) + [t]],
             st.calls[t := c.(phase := Landed(record, |StreamOf(st, c)|))])
        && Carries(link, c.ctx, c.op, record) && Follows(record, StreamOf(st, c))
  {
    var st := Run(link, steps);
    var c := st.calls[t];
    var stream := StreamOf(st, c);
    var one, two := steps + [ReadHead(t)], steps + [ReadHead(t), ReadSequence(t)];
    var three := two + [Compare(t)];
    assert steps + [ReadHead(t), ReadSequence(t), Compare(t)] == three;
    assert one[..|one| - 1] == steps && two[..|two| - 1] == one && three[..|three| - 1] == two;
    assert Run(link, two)
        == SetCall(st, t, c.(phase := SawSequence(HeadOf(stream), |stream|, |stream|, Latest(stream) + 1)));
    Undisturbed(link, c.ctx, c.op, stream);
    NextFollows(link, c.ctx, c.op, stream);
  }

  // Giving up takes eight attempts and as many foreign appends during the call.
  lemma {:induction false} ExhaustionNeedsContention<O>(link: Link<O>, steps: seq<Step<O>>, t: nat)
    ensures var st := Run(link, steps);
      t in st.calls && st.calls[t].phase.Refused? && st.calls[t].phase.error.StaleHead? ==>
        var c := st.calls[t];
        var log := At(st.writers, c.ctx.streamId);
        c.attempt == 8 && |log| - c.began >= 8 && forall i | c.began <= i < |log| :: log[i] != t
  {
    RunKeepsBooks(link, steps);
    Contention(Run(link, steps), t);
  }

  lemma {:induction false} Contention<O>(st: State<O>, t: nat)
    ensures Books(st) && t in st.calls && st.calls[t].phase.Refused? && st.calls[t].phase.error.StaleHead? ==>
      var c := st.calls[t];
      var log := At(st.writers, c.ctx.streamId);
      c.attempt == 8 && |log| - c.began >= 8 && forall i | c.began <= i < |log| :: log[i] != t
  {
    if Books(st) && t in st.calls && st.calls[t].phase.Refused? {
      var s := st.calls[t].ctx.streamId;
      assert CallOk(st, t) && |At(st.writers, s)| == |At(st.streams, s)|;
      forall i | 0 <= i < |At(st.writers, s)| ensures At(st.writers, s)[i] != t {
        assert WriterOk(st, s, i);
      }
    }
  }

  // -- What every run keeps under a sound hash -------------------------------

  ghost predicate Verified<O>(link: Link<O>, st: State<O>) {
    && (forall s :: Chained(link, At(st.streams, s)))
    && (forall t | t in st.calls && st.calls[t].phase.Refused? :: st.calls[t].phase.error.StaleHead?)
  }

  lemma {:induction false} Cuts<T>(s: seq<T>, at: nat, seen: nat)
    requires at <= seen <= |s|
    ensures s[..at] + s[at..seen] == s[..seen] && s[..at] + s[at..seen] + s[seen..] == s
  {
  }

  lemma {:induction false} SlicedStep<O(!new)>(
    link: Link<O>, ctx: PersistContext, op: O, stream: seq<OpRecord<O>>, at: nat, seen: nat)
    requires Sound(link) && Chained(link, stream) && at <= seen <= |stream|
    ensures var record := BuildRecord(link, ctx, op, HeadOf(stream[..at]), Latest(stream[..seen]) + 1);
      match CompareOutcome(stream, record, HeadOf(stream[..at]))
      case None => Chained(link, stream + [record])
      case Some(e) => e.StaleHead?
  {
    var atHead, second, third := stream[..at], stream[at..seen], stream[seen..];
    Cuts(stream, at, seen);
    GuardedStep(link, ctx, op, atHead, second, third);
  }

  lemma {:induction false} CompareVerified<O(!new)>(link: Link<O>, st: State<O>, t: nat)
    requires Sound(link) && Books(st) && Verified(link, st) && t in st.calls && st.calls[t].phase.SawSequence?
    ensures Verified(link, Compared(link, st, t, st.calls[t]))
  {
    var c := st.calls[t];
    var stream := StreamOf(st, c);
    assert CallOk(st, t) && Chained(link, stream);
    SlicedStep(link, c.ctx, c.op, stream, c.phase.at, c.phase.seen);
    var next := Compared(link, st, t, c);
    forall s ensures Chained(link, At(next.streams, s)) {
      assert Chained(link, At(st.streams, s));
    }
  }

  lemma {:induction false} RunVerified<O(!new)>(link: Link<O>, steps: seq<Step<O>>)
    requires Sound(link)
    ensures Verified(link, Run(link, steps))
    decreases |steps|
  {
    if steps != [] {
      var st, step := Run(link, steps[..|steps| - 1]), steps[|steps| - 1];
      RunVerified(link, steps[..|steps| - 1]);
      RunKeepsBooks(link, steps[..|steps| - 1]);
      TakeVerified(link, st, step);
    }
  }

  lemma {:induction false} TakeVerified<O(!new)>(link: Link<O>, st: State<O>, step: Step<O>)
    requires Sound(link) && Books(st) && Verified(link, st)
    ensures Verified(link, Take(link, st, step))
  {
    if step.Compare? && step.call in st.calls && st.calls[step.call].phase.SawSequence? {
      CompareVerified(link, st, step.call);
    } else {
      assert Take(link, st, step).streams == st.streams;
    }
  }

  // After any steps of any calls: verification passes on every stream, and no call was
  // ever refused for a duplicate sequence.
  lemma {:induction false} EveryRunVerifies<O(!new)>(link: Link<O>, steps: seq<Step<O>>)
    requires Sound(link)
    ensures var st := Run(link, steps);
      && (forall s :: FirstViolation(link, At(st.streams, s), Genesis(), 1).None?)
      && (forall t | t in st.calls :: st.calls[t].phase != Refused(Duplicate))
  {
    RunVerified(link, steps);
    var st := Run(link, steps);
    forall s ensures FirstViolation(link, At(st.streams, s), Genesis(), 1).None? {
      ChainedIs(link, At(st.streams, s));
    }
  }
}
