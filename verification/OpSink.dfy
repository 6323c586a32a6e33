// The in-memory op-stream sink with its compare-and-append, and the append drivers
// over it as one caller alone sees them.
module OpSink {
  import opened Wrappers
  import opened OpChain

  const MAX_APPEND_ATTEMPTS: nat := 8

  datatype SinkError = Duplicate | StaleHead(actual: Hash) | Gap

  predicate Taken<O>(records: seq<OpRecord<O>>, sequence: int) {
    exists i | 0 <= i < |records| :: records[i].sequence == sequence
  }

  // The highest sequence, or 0.
  function Latest<O>(records: seq<OpRecord<O>>): nat {
    if records == [] then 0 else
    var front, x := Latest(records[..|records| - 1]), records[|records| - 1].sequence;
    if x > front then x else front
  }

  lemma {:induction false} LatestBounds<O>(records: seq<OpRecord<O>>)
    ensures forall i | 0 <= i < |records| :: records[i].sequence <= Latest(records)
    ensures Latest(records) == 0 || Taken(records, Latest(records))
    decreases |records|
  {
    if records != [] {
      var n := |records| - 1;
      LatestBounds(records[..n]);
      forall i | 0 <= i < |records| ensures records[i].sequence <= Latest(records) {
        if i < n { assert records[i] == records[..n][i]; }
      }
      if Latest(records[..n]) != 0 {
        var i :| 0 <= i < n && records[..n][i].sequence == Latest(records[..n]);
        assert records[i] == records[..n][i];
      }
      assert records[n].sequence <= Latest(records);
    }
  }

  // The records of a range of sequences, in the order they were appended.
  function InRange<O>(records: seq<OpRecord<O>>, from: int, to: int): seq<OpRecord<O>> {
    if records == [] then []
    else (if from <= records[0].sequence <= to then [records[0]] else []) + InRange(records[1..], from, to)
  }

  function Place<O>(r: OpRecord<O>, s: seq<OpRecord<O>>): seq<OpRecord<O>> {
    if s == [] || r.sequence < s[0].sequence then [r] + s else [s[0]] + Place(r, s[1..])
  }

  function SortBySequence<O>(s: seq<OpRecord<O>>): seq<OpRecord<O>> {
    if s == [] then [] else Place(s[0], SortBySequence(s[1..]))
  }

  // What a replay of a range answers.
  function ReplayOf<O>(records: seq<OpRecord<O>>, from: int, to: int): seq<OpRecord<O>> {
    SortBySequence(InRange(records, from, to))
  }

  ghost predicate Within<O>(r: OpRecord<O>, from: int, to: int) {
    from <= r.sequence <= to
  }

  ghost predicate Ascending<O>(s: seq<OpRecord<O>>) {
    forall i, j | 0 <= i < j < |s| :: s[i].sequence <= s[j].sequence
  }

  lemma {:induction false} RangeHolds<O(!new)>(records: seq<OpRecord<O>>, from: int, to: int)
    ensures forall r ::
      multiset(InRange(records, from, to))[r] == if Within(r, from, to) then multiset(records)[r] else 0
  {
    if records != [] {
      RangeHolds(records[1..], from, to);
      assert records == [records[0]] + records[1..];
    }
  }

  lemma {:induction false} NotBelow<O(!new)>(low: int, out: seq<OpRecord<O>>, s: seq<OpRecord<O>>, r: OpRecord<O>)
    requires multiset(out) == multiset(s) + multiset{r} && low <= r.sequence
    requires forall i | 0 <= i < |s| :: low <= s[i].sequence
    ensures forall i | 0 <= i < |out| :: low <= out[i].sequence
  {
    forall i | 0 <= i < |out| ensures low <= out[i].sequence {
      assert out[i] in multiset(s) + multiset{r};
      assert out[i] in s || out[i] == r;
    }
  }

  lemma {:induction false} ConsAscends<O>(x: OpRecord<O>, s: seq<OpRecord<O>>)
    requires Ascending(s) && forall i | 0 <= i < |s| :: x.sequence <= s[i].sequence
    ensures Ascending([x] + s)
  {
  }

  lemma {:induction false} RestAscends<O>(s: seq<OpRecord<O>>)
    requires Ascending(s) && s != []
    ensures Ascending(s[1..]) && forall i | 0 <= i < |s[1..]| :: s[0].sequence <= s[1..][i].sequence
    ensures multiset(s) == multiset{s[0]} + multiset(s[1..])
  {
    assert s == [s[0]] + s[1..];
  }

  lemma {:induction false} PlaceAscends<O(!new)>(r: OpRecord<O>, s: seq<OpRecord<O>>)
    requires Ascending(s)
    ensures Ascending(Place(r, s)) && multiset(Place(r, s)) == multiset(s) + multiset{r}
  {
    if s == [] || r.sequence < s[0].sequence {
      ConsAscends(r, s);
    } else {
      RestAscends(s);
      PlaceAscends(r, s[1..]);
      NotBelow(s[0].sequence, Place(r, s[1..]), s[1..], r);
      ConsAscends(s[0], Place(r, s[1..]));
    }
  }

  lemma {:induction false} SortAscends<O(!new)>(s: seq<OpRecord<O>>)
    ensures Ascending(SortBySequence(s)) && multiset(SortBySequence(s)) == multiset(s)
  {
    if s != [] {
      SortAscends(s[1..]);
      PlaceAscends(s[0], SortBySequence(s[1..]));
      assert s == [s[0]] + s[1..];
    }
  }

  // A replay holds exactly the records of the range, each as often as the stream does, by
  // ascending sequence.
  lemma {:induction false} ReplayHolds<O(!new)>(records: seq<OpRecord<O>>, from: int, to: int)
    ensures var out := ReplayOf(records, from, to);
      && Ascending(out)
      && forall r :: multiset(out)[r] == if Within(r, from, to) then multiset(records)[r] else 0
  {
    RangeHolds(records, from, to);
    SortAscends(InRange(records, from, to));
  }

  ghost predicate ContiguousFrom<O>(records: seq<OpRecord<O>>, base: int) {
    forall i | 0 <= i < |records| :: records[i].sequence == base + i
  }

  function Clamp(x: int, high: nat): nat {
    if x < 0 then 0 else if x > high then high else x
  }

  lemma {:induction false} RestContiguous<O>(records: seq<OpRecord<O>>, base: int)
    requires ContiguousFrom(records, base) && records != []
    ensures ContiguousFrom(records[1..], base + 1)
  {
    forall i | 0 <= i < |records[1..]| ensures records[1..][i].sequence == base + 1 + i {
      assert records[1..][i] == records[i + 1];
    }
  }

  lemma {:induction false} SliceOfRest<T>(s: seq<T>, lo: nat, hi: nat)
    requires 1 <= lo <= hi <= |s|
    ensures s[lo..hi] == s[1..][lo - 1..hi - 1]
  {
    var front, back := s[lo..hi], s[1..][lo - 1..hi - 1];
    forall k | 0 <= k < hi - lo ensures front[k] == back[k] {
      assert front[k] == s[lo + k] && back[k] == s[1..][lo - 1 + k];
    }
  }

  lemma {:induction false} RangeStep<O>(
    stream: seq<OpRecord<O>>, i: nat, from: int, to: int, found: seq<OpRecord<O>>)
    requires i < |stream|
    ensures found + InRange(stream[i..], from, to)
         == (if from <= stream[i].sequence <= to then found + [stream[i]] else found)
          + InRange(stream[i + 1..], from, to)
  {
    var rest := InRange(stream[i + 1..], from, to);
    assert stream[i..][0] == stream[i] && stream[i..][1..] == stream[i + 1..];
    assert found + ([stream[i]] + rest) == found + [stream[i]] + rest;
  }

  // On a contiguous stream a range is a slice.
  lemma {:induction false} RangeIsSlice<O>(records: seq<OpRecord<O>>, base: int, from: int, to: int)
    requires ContiguousFrom(records, base) && from <= to + 1
    ensures Clamp(from - base, |records|) <= Clamp(to - base + 1, |records|)
    ensures InRange(records, from, to) == records[Clamp(from - base, |records|)..Clamp(to - base + 1, |records|)]
    decreases |records|
  {
    if records != [] {
      var rest := records[1..];
      RestContiguous(records, base);
      RangeIsSlice(rest, base + 1, from, to);
      var lo, hi := Clamp(from - base, |records|), Clamp(to - base + 1, |records|);
      assert records[0].sequence == base;
      if from <= base <= to {
        assert lo == 0 && hi >= 1 && InRange(rest, from, to) == rest[0..hi - 1];
        HeadSlice(records, hi);
        assert InRange(records, from, to) == records[lo..hi];
      } else if base < from {
        assert 1 <= lo <= hi && InRange(rest, from, to) == rest[lo - 1..hi - 1];
        SliceOfRest(records, lo, hi);
        assert InRange(records, from, to) == records[lo..hi];
      } else {
        assert lo == 0 && hi == 0 && InRange(rest, from, to) == rest[0..0] == [];
        assert InRange(records, from, to) == records[lo..hi];
      }
    } else {
      assert records[0..0] == [];
    }
  }

  lemma {:induction false} HeadSlice<T>(s: seq<T>, hi: nat)
    requires 1 <= hi <= |s|
    ensures s[0..hi] == [s[0]] + s[1..][0..hi - 1]
  {
  }

  lemma {:induction false} SortedStays<O>(records: seq<OpRecord<O>>, base: int)
    requires ContiguousFrom(records, base)
    ensures SortBySequence(records) == records
    decreases |records|
  {
    if records != [] {
      var rest := records[1..];
      RestContiguous(records, base);
      SortedStays(rest, base + 1);
      assert rest != [] ==> rest[0] == records[1];
    }
  }

  lemma {:induction false} SliceContiguous<O>(records: seq<OpRecord<O>>, base: int, lo: nat, hi: nat)
    requires ContiguousFrom(records, base) && lo <= hi <= |records|
    ensures ContiguousFrom(records[lo..hi], base + lo)
  {
  }

  lemma {:induction false} ReplaySlice<O>(records: seq<OpRecord<O>>, k: nat)
    requires ContiguousFrom(records, 1) && k <= |records|
    ensures ReplayOf(records, k + 1, |records|) == records[k..]
  {
    RangeIsSlice(records, 1, k + 1, |records|);
    assert records[k..|records|] == records[k..];
    SliceContiguous(records, 1, k, |records|);
    SortedStays(records[k..], 1 + k);
  }

  // Replaying a verified stream from a position to the end gives its tail.
  lemma {:induction false} ReplayTail<O>(link: Link<O>, records: seq<OpRecord<O>>, k: nat)
    requires Chained(link, records) && k <= |records|
    ensures ReplayOf(records, k + 1, Latest(records)) == records[k..]
  {
    ChainedContiguous(link, records);
    ReplaySlice(records, k);
  }

  lemma {:induction false} ChainedContiguous<O>(link: Link<O>, records: seq<OpRecord<O>>)
    requires Chained(link, records)
    ensures ContiguousFrom(records, 1) && Latest(records) == |records|
  {
    forall i | 0 <= i < |records| ensures records[i].sequence == 1 + i {
      assert LinkedAt(link, records, i);
    }
    LatestBounds(records);
    if records != [] {
      assert records[|records| - 1].sequence == |records|;
    }
  }

  lemma {:induction false} LatestFresh<O>(records: seq<OpRecord<O>>)
    ensures !Taken(records, Latest(records) + 1)
  {
    LatestBounds(records);
  }

  // What comparing and appending answers on a stream.
  function CompareOutcome<O>(stream: seq<OpRecord<O>>, record: OpRecord<O>, expectedHead: Hash): Option<SinkError> {
    if HeadOf(stream) != expectedHead then Some(StaleHead(HeadOf(stream)))
    else if Taken(stream, record.sequence) then Some(Duplicate)
    else None
  }

  // The head is compared before the sequence is looked for, and a stale head is answered with
  // the head there is.
  lemma {:induction false} CompareMeans<O>(stream: seq<OpRecord<O>>, record: OpRecord<O>, expectedHead: Hash)
    ensures var taken := exists i :: 0 <= i < |stream| && stream[i].sequence == record.sequence;
      match CompareOutcome(stream, record, expectedHead)
      case Some(StaleHead(actual)) => HeadOf(stream) != expectedHead && actual == HeadOf(stream)
      case Some(Duplicate) => HeadOf(stream) == expectedHead && taken
      case Some(Gap) => false
      case None => HeadOf(stream) == expectedHead && !taken
  {
  }

  class InMemorySink<O> {
    var records: map<string, seq<OpRecord<O>>>
    var heads: map<string, Hash>

    ghost predicate Valid()
      reads this
    {
      && heads.Keys == records.Keys
      && forall s | s in records :: records[s] != [] && heads[s] == HeadOf(records[s])
    }

    constructor ()
      ensures Valid() && records == map[]
    {
      records, heads := map[], map[];
    }

    function Stream(s: string): seq<OpRecord<O>>
      reads this
    {
      if s in records then records[s] else []
    }

    method Append(record: OpRecord<O>) returns (err: Option<SinkError>)
      requires Valid()
      modifies this
      ensures Valid()
      ensures err == if Taken(old(Stream(record.streamId)), record.sequence) then Some(Duplicate) else None
      ensures records == if err.None? then old(records)[record.streamId := old(Stream(record.streamId)) + [record]]
                         else old(records)
      ensures heads == if err.None? then old(heads)[record.streamId := record.hash] else old(heads)
    {
      var stream := Stream(record.streamId);
      for i := 0 to |stream|
        invariant records == old(records) && heads == old(heads) && Valid() && stream == old(Stream(record.streamId))
        invariant forall k | 0 <= k < i :: stream[k].sequence != record.sequence
      {
        if stream[i].sequence == record.sequence {
          return Some(Duplicate);
        }
      }
      records := records[record.streamId := stream + [record]];
      heads := heads[record.streamId := record.hash];
      err := None;
    }

    method Replay(s: string, from: int, to: int) returns (out: seq<OpRecord<O>>)
      ensures out == ReplayOf(Stream(s), from, to)
    {
      var found := [];
      var stream := Stream(s);
      for i := 0 to |stream|
        invariant InRange(stream, from, to) == found + InRange(stream[i..], from, to)
      {
        RangeStep(stream, i, from, to, found);
        if stream[i].sequence >= from && stream[i].sequence <= to {
          found := found + [stream[i]];
        }
      }
      assert stream[|stream|..] == [] && found + [] == found;
      out := SortBySequence(found);
    }

    method Head(s: string) returns (head: Hash)
      requires Valid()
      ensures head == HeadOf(Stream(s))
    {
      if s in heads {
        head := heads[s];
      } else {
        head := Genesis();
      }
    }

    method LatestSequence(s: string) returns (latest: int)
      ensures latest == Latest(Stream(s))
    {
      latest := 0;
      var stream := Stream(s);
      for i := 0 to |stream|
        invariant latest == Latest(stream[..i])
      {
        assert stream[..i + 1][..i] == stream[..i];
        if stream[i].sequence > latest {
          latest := stream[i].sequence;
        }
      }
      assert stream[..|stream|] == stream;
    }

    // What other writers append between two steps of one caller.
    method Land(s: string, landed: seq<OpRecord<O>>)
      requires Valid()
      modifies this
      ensures Valid() && Stream(s) == old(Stream(s)) + landed
      ensures records - {s} == old(records) - {s}
    {
      if landed != [] {
        var stream := Stream(s) + landed;
        records := records[s := stream];
        heads := heads[s := stream[|stream| - 1].hash];
      }
    }

    // The compare and the append are one step.
    method AppendIf(record: OpRecord<O>, expectedHead: Hash) returns (err: Option<SinkError>)
      requires Valid()
      modifies this
      ensures Valid()
      ensures err == CompareOutcome(old(Stream(record.streamId)), record, expectedHead)
      ensures records - {record.streamId} == old(records) - {record.streamId}
      ensures Stream(record.streamId) == old(Stream(record.streamId)) + (if err.None? then [record] else [])
    {
      var actual := Head(record.streamId);
      if actual != expectedHead {
        return Some(StaleHead(actual));
      }
      err := Append(record);
    }
  }

  // -- Appending -------------------------------------------------------------

  datatype PersistContext = PersistContext(streamId: string, userId: string, promptId: Option<string>, timestamp: int)

  // The record an attempt builds from the head and the sequence it read.
  function BuildRecord<O>(link: Link<O>, ctx: PersistContext, op: O, head: Hash, sequence: int): OpRecord<O> {
    var blank :=
      OpRecord(ctx.streamId, sequence, head, "", op, Human(ctx.userId), ctx.timestamp, Success, ctx.promptId);
    blank.(hash := ComputeHash(link, blank))
  }

  // The record tells the call's stream, op, user, time and prompt, as a success, and its hash
  // covers them together with its place and the record before it.
  ghost predicate Carries<O>(link: Link<O>, ctx: PersistContext, op: O, r: OpRecord<O>) {
    && r.streamId == ctx.streamId && r.op == op && r.actor == Human(ctx.userId)
    && r.timestamp == ctx.timestamp && r.promptId == ctx.promptId && r.result == Success
    && r.hash
       == link(
         r.previousHash, Payload(r.sequence - 1, Human(ctx.userId), op, ctx.timestamp, ctx.promptId, Success))
  }

  lemma {:induction false} BuildCarries<O>(link: Link<O>, ctx: PersistContext, op: O, r: OpRecord<O>)
    requires r == BuildRecord(link, ctx, op, r.previousHash, r.sequence)
    ensures Carries(link, ctx, op, r)
  {
  }

  // The record stands right after a stream: linked to its head, numbered after its latest.
  ghost predicate Follows<O>(r: OpRecord<O>, stream: seq<OpRecord<O>>) {
    && (stream == [] ==> |r.previousHash| == 64 && forall k | 0 <= k < 64 :: r.previousHash[k] == '0')
    && (stream != [] ==> r.previousHash == stream[|stream| - 1].hash)
    && (forall i | 0 <= i < |stream| :: stream[i].sequence < r.sequence)
    && (r.sequence == 1 || exists i | 0 <= i < |stream| :: stream[i].sequence == r.sequence - 1)
  }

  // The next record of a stream does both.
  lemma {:induction false} NextFollows<O>(link: Link<O>, ctx: PersistContext, op: O, stream: seq<OpRecord<O>>)
    ensures Follows(NextRecord(link, ctx, op, stream), stream)
    ensures Carries(link, ctx, op, NextRecord(link, ctx, op, stream))
  {
    LatestBounds(stream);
  }

  function NextRecord<O>(link: Link<O>, ctx: PersistContext, op: O, stream: seq<OpRecord<O>>): OpRecord<O> {
    BuildRecord(link, ctx, op, HeadOf(stream), Latest(stream) + 1)
  }

  // The records other writers land on the stream at a moment of the call, given what
  // the stream holds then.
  type Others<!O> = (nat, seq<OpRecord<O>>) -> seq<OpRecord<O>>

  // Somebody else writes.
  ghost predicate Busy<O(!new)>(others: Others<O>) {
    exists at, stream :: others(at, stream) != []
  }

  // Writers that extend a verified stream to a verified stream.
  ghost predicate Polite<O(!new)>(link: Link<O>, others: Others<O>) {
    forall at, stream :: Chained(link, stream) ==> Chained(link, stream + others(at, stream))
  }

  // The next record keeps the chain verified.
  lemma {:induction false} NextKeepsChain<O>(link: Link<O>, ctx: PersistContext, op: O, stream: seq<OpRecord<O>>)
    requires Chained(link, stream)
    ensures Chained(link, stream + [NextRecord(link, ctx, op, stream)])
  {
    ChainedContiguous(link, stream);
    ChainedSnoc(link, stream, NextRecord(link, ctx, op, stream));
  }

  // What an attempt's compare can see on a verified stream: the head was read at one
  // length, the sequence at a later one, and the append happens at a later one still.
  lemma {:induction false} GuardedStep<O(!new)>(
    link: Link<O>, ctx: PersistContext, op: O, atHead: seq<OpRecord<O>>, second: seq<OpRecord<O>>,
    third: seq<OpRecord<O>>)
    requires Sound(link) && Chained(link, atHead + second + third)
    ensures var record := BuildRecord(link, ctx, op, HeadOf(atHead), Latest(atHead + second) + 1);
      var stream := atHead + second + third;
      match CompareOutcome(stream, record, HeadOf(atHead))
      case None => record == NextRecord(link, ctx, op, stream) && Chained(link, stream + [record])
      case Some(e) => e.StaleHead?
  {
    var stream := atHead + second + third;
    if second == [] && third == [] {
      assert atHead + second == atHead && stream == atHead;
      LatestFresh(atHead);
      NextKeepsChain(link, ctx, op, stream);
    } else {
      HeadsDiffer(link, stream, |atHead|);
      assert stream[..|atHead|] == atHead;
    }
  }

  lemma {:induction false} AttemptOutcome<O(!new)>(
    link: Link<O>, ctx: PersistContext, op: O, others: Others<O>, attempt: nat,
    before: seq<OpRecord<O>>, first: seq<OpRecord<O>>, second: seq<OpRecord<O>>, third: seq<OpRecord<O>>)
    requires first == others(3 * attempt, before)
    requires second == others(3 * attempt + 1, before + first)
    requires third == others(3 * attempt + 2, before + first + second)
    ensures before + first + second + third == before + (first + second + third)
    ensures before + (first + second + third) == before + (first + second + third) + []
    ensures var record := BuildRecord(link, ctx, op, HeadOf(before + first), Latest(before + first + second) + 1);
      var stream := before + (first + second + third);
      var outcome := CompareOutcome(stream, record, HeadOf(before + first));
      && (first + second + third == [] ==> outcome.None? && record == NextRecord(link, ctx, op, before))
      && (Sound(link) && Polite(link, others) && Chained(link, before) ==>
            match outcome
            case None => record == NextRecord(link, ctx, op, stream) && Chained(link, stream + [record])
            case Some(e) => e.StaleHead? && Chained(link, stream))
  {
    assert before + first + second + third == before + (first + second + third);
    if first == [] && second == [] && third == [] {
      assert before + first == before && before + first + second == before;
      Undisturbed(link, ctx, op, before);
    } else {
      assert first + second + third != [];
    }
    if Sound(link) && Polite(link, others) && Chained(link, before) {
      PoliteRun(link, others, attempt, before);
      GuardedStep(link, ctx, op, before + first, second, third);
    }
  }

  lemma {:induction false} Undisturbed<O>(link: Link<O>, ctx: PersistContext, op: O, stream: seq<OpRecord<O>>)
    ensures CompareOutcome(stream, NextRecord(link, ctx, op, stream), HeadOf(stream)).None?
    ensures stream + [] == stream
  {
    LatestFresh(stream);
  }

  lemma {:induction false} PoliteRun<O(!new)>(link: Link<O>, others: Others<O>, attempt: nat, before: seq<OpRecord<O>>)
    requires Polite(link, others) && Chained(link, before)
    ensures var s := before + others(3 * attempt, before);
            var t := s + others(3 * attempt + 1, s);
            Chained(link, s) && Chained(link, t) && Chained(link, t + others(3 * attempt + 2, t))
  {
  }

  // Why the head is read first: a sequence read before a head, with a record landing in
  // between, passes the head comparison and is rejected as a duplicate.
  lemma {:induction false} SequenceFirstCollides<O>(
    link: Link<O>, ctx: PersistContext, op: O, stream: seq<OpRecord<O>>, grown: seq<OpRecord<O>>)
    requires Chained(link, grown) && stream < grown
    ensures CompareOutcome(grown, BuildRecord(link, ctx, op, HeadOf(grown), Latest(stream) + 1), HeadOf(grown))
         == Some(Duplicate)
  {
    ChainedContiguous(link, grown);
    ChainedPrefix(link, grown, |stream|);
    assert grown[..|stream|] == stream;
    ChainedContiguous(link, stream);
    assert grown[|stream|].sequence == |stream| + 1;
  }

  // Read the head, then the sequence; other writers may land records before each read.
  method Observe<O>(sink: InMemorySink<O>, s: string, others: Others<O>, attempt: nat)
    returns (head: Hash, latest: int, ghost first: seq<OpRecord<O>>, ghost second: seq<OpRecord<O>>)
    requires sink.Valid()
    modifies sink
    ensures sink.Valid() && sink.records - {s} == old(sink.records) - {s}
    ensures sink.Stream(s) == old(sink.Stream(s)) + first + second
    ensures first == others(3 * attempt, old(sink.Stream(s)))
    ensures second == others(3 * attempt + 1, old(sink.Stream(s)) + first)
    ensures head == HeadOf(old(sink.Stream(s)) + first) && latest == Latest(sink.Stream(s))
  {
    first := others(3 * attempt, sink.Stream(s));
    sink.Land(s, others(3 * attempt, sink.Stream(s)));
    head := sink.Head(s);
    second := others(3 * attempt + 1, sink.Stream(s));
    sink.Land(s, others(3 * attempt + 1, sink.Stream(s)));
    latest := sink.LatestSequence(s);
  }

  // One attempt: observe, then compare and append.
  method TryAppend<O(!new)>(
    sink: InMemorySink<O>, link: Link<O>, ctx: PersistContext, op: O, others: Others<O>, attempt: nat)
    returns (record: OpRecord<O>, err: Option<SinkError>, ghost landed: seq<OpRecord<O>>)
    requires sink.Valid()
    modifies sink
    ensures sink.Valid() && sink.records - {ctx.streamId} == old(sink.records) - {ctx.streamId}
    ensures sink.Stream(ctx.streamId)
         == old(sink.Stream(ctx.streamId)) + landed + (if err.None? then [record] else [])
    ensures record == BuildRecord(link, ctx, op, record.previousHash, record.sequence)
    ensures landed != [] ==> Busy(others)
    ensures landed == [] ==> err.None? && record == NextRecord(link, ctx, op, old(sink.Stream(ctx.streamId)))
    ensures Sound(link) && Polite(link, others) && Chained(link, old(sink.Stream(ctx.streamId))) ==>
      && Chained(link, sink.Stream(ctx.streamId))
      && (err.Some? ==> err.value.StaleHead?)
      && (err.None? ==> record == NextRecord(link, ctx, op, old(sink.Stream(ctx.streamId)) + landed))
  {
    ghost var before := sink.Stream(ctx.streamId);
    var head, latest;
    ghost var first, second;
    head, latest, first, second := Observe(sink, ctx.streamId, others, attempt);
    record := BuildRecord(link, ctx, op, head, latest + 1);
    assert record == BuildRecord(link, ctx, op, HeadOf(before + first), Latest(before + first + second) + 1);
    ghost var third := others(3 * attempt + 2, sink.Stream(ctx.streamId));
    sink.Land(ctx.streamId, others(3 * attempt + 2, sink.Stream(ctx.streamId)));
    landed := first + second + third;
    AttemptOutcome(link, ctx, op, others, attempt, before, first, second, third);
    ghost var stream := before + landed;
    assert sink.Stream(ctx.streamId) == stream;
    err := sink.AppendIf(record, head);
    assert err == CompareOutcome(stream, record, head);
    assert sink.Stream(ctx.streamId) == if err.None? then stream + [record] else stream;
  }

  lemma {:induction false} Regroup<T>(a: seq<T>, b: seq<T>, c: seq<T>)
    ensures a + b + c == a + (b + c)
  {
  }

  // Attempts until one lands, up to the limit; only a stale head is retried.
  method AppendNext<O(!new)>(sink: InMemorySink<O>, link: Link<O>, ctx: PersistContext, op: O, others: Others<O>)
    returns (r: Result<OpRecord<O>, SinkError>, ghost landed: seq<OpRecord<O>>)
    requires sink.Valid()
    modifies sink
    ensures sink.Valid() && sink.records - {ctx.streamId} == old(sink.records) - {ctx.streamId}
    ensures sink.Stream(ctx.streamId) == old(sink.Stream(ctx.streamId)) + landed + (if r.Ok? then [r.value] else [])
    ensures r.Ok? ==> Carries(link, ctx, op, r.value)
    ensures landed != [] ==> Busy(others)
    ensures r.Err? ==> |landed| >= (if r.error.StaleHead? then 8 else 1)
    ensures landed == [] ==> r == Ok(NextRecord(link, ctx, op, old(sink.Stream(ctx.streamId))))
    ensures Sound(link) && Polite(link, others) && Chained(link, old(sink.Stream(ctx.streamId))) ==>
      && Chained(link, sink.Stream(ctx.streamId))
      && (r.Err? ==> r.error.StaleHead?)
      && (r.Ok? ==> r.value == NextRecord(link, ctx, op, old(sink.Stream(ctx.streamId)) + landed))
  {
    ghost var before := sink.Stream(ctx.streamId);
    landed := [];
    var lastErr := Duplicate;
    var attempt := 0;
    while attempt < MAX_APPEND_ATTEMPTS
      invariant attempt <= MAX_APPEND_ATTEMPTS && attempt <= |landed|
      invariant attempt > 0 ==> lastErr.StaleHead?
      invariant landed != [] ==> Busy(others)
      invariant sink.Valid() && sink.records - {ctx.streamId} == old(sink.records) - {ctx.streamId}
      invariant sink.Stream(ctx.streamId) == before + landed
      invariant Sound(link) && Polite(link, others) && Chained(link, before) ==>
        Chained(link, sink.Stream(ctx.streamId))
    {
      ghost var more;
      var record, err;
      record, err, more := TryAppend(sink, link, ctx, op, others, attempt);
      Regroup(before, landed, more);
      landed := landed + more;
      if err.None? {
        BuildCarries(link, ctx, op, record);
        return Ok(record), landed;
      }
      if !err.value.StaleHead? {
        return Err(err.value), landed;
      }
      lastErr := err.value;
      attempt := attempt + 1;
    }
    r := Err(lastErr);
  }

  // What the record at a sequence links to when nobody compares heads; None is a gap.
  function PreviousHashFor<O>(stream: seq<OpRecord<O>>, sequence: int): Option<Hash> {
    if sequence == 1 then Some(Genesis()) else
    var before := ReplayOf(stream, sequence - 1, sequence - 1);
    if before == [] then None else Some(before[0].hash)
  }

  lemma {:induction false} RangeHas<O>(records: seq<OpRecord<O>>, i: nat, from: int, to: int)
    requires i < |records| && from <= records[i].sequence <= to
    ensures InRange(records, from, to) != []
  {
    if i > 0 {
      RangeHas(records[1..], i - 1, from, to);
    }
  }

  // The in-memory sink always holds its latest sequence, so the gap refusal is for other sinks.
  lemma {:induction false} NoGap<O>(stream: seq<OpRecord<O>>)
    ensures PreviousHashFor(stream, Latest(stream) + 1).Some?
  {
    LatestBounds(stream);
    if Latest(stream) != 0 {
      var i :| 0 <= i < |stream| && stream[i].sequence == Latest(stream);
      RangeHas(stream, i, Latest(stream), Latest(stream));
    }
  }

  function AppendOpOutcome<O>(link: Link<O>, ctx: PersistContext, op: O, stream: seq<OpRecord<O>>)
    : Result<OpRecord<O>, SinkError>
  {
    match PreviousHashFor(stream, Latest(stream) + 1)
    case None => Err(Gap)
    case Some(previous) => Ok(BuildRecord(link, ctx, op, previous, Latest(stream) + 1))
  }

  // On a verified stream the plain append writes the record the compared one does.
  lemma {:induction false} PlainAppendAgrees<O>(link: Link<O>, ctx: PersistContext, op: O, stream: seq<OpRecord<O>>)
    requires Chained(link, stream)
    ensures AppendOpOutcome(link, ctx, op, stream) == Ok(NextRecord(link, ctx, op, stream))
  {
    ChainedContiguous(link, stream);
    if stream != [] {
      var n := |stream|;
      RangeIsSlice(stream, 1, n, n);
      SliceContiguous(stream, 1, n - 1, n);
      SortedStays(stream[n - 1..n], n);
    }
  }

  lemma {:induction false} PlainFollows<O>(link: Link<O>, ctx: PersistContext, op: O, stream: seq<OpRecord<O>>)
    ensures var r := AppendOpOutcome(link, ctx, op, stream);
      && (r.Ok? ==> Carries(link, ctx, op, r.value))
      && (Chained(link, stream) ==> r.Ok? && Follows(r.value, stream))
  {
    if Chained(link, stream) {
      PlainAppendAgrees(link, ctx, op, stream);
      NextFollows(link, ctx, op, stream);
    }
  }

  // Read the latest sequence, then append without comparing.
  method AppendOp<O>(sink: InMemorySink<O>, link: Link<O>, ctx: PersistContext, op: O)
    returns (r: Result<OpRecord<O>, SinkError>)
    requires sink.Valid()
    modifies sink
    ensures sink.Valid()
    ensures r == AppendOpOutcome(link, ctx, op, old(sink.Stream(ctx.streamId)))
    ensures r.Ok? ==> Carries(link, ctx, op, r.value)
    ensures Chained(link, old(sink.Stream(ctx.streamId))) ==>
      r.Ok? && Follows(r.value, old(sink.Stream(ctx.streamId)))
    ensures sink.records ==
      if r.Err? then old(sink.records)
      else old(sink.records)[ctx.streamId := old(sink.Stream(ctx.streamId)) + [r.value]]
  {
    ghost var stream := sink.Stream(ctx.streamId);
    LatestFresh(stream);
    PlainFollows(link, ctx, op, stream);
    var latest := sink.LatestSequence(ctx.streamId);
    var sequence := latest + 1;
    var previousHash := Genesis();
    if sequence != 1 {
      var before := sink.Replay(ctx.streamId, sequence - 1, sequence - 1);
      if before == [] {
        return Err(Gap);
      }
      previousHash := before[0].hash;
    }
    var record := BuildRecord(link, ctx, op, previousHash, sequence);
    var err := sink.Append(record);
    if err.Some? {
      assert false;
    }
    r := Ok(record);
  }
}
