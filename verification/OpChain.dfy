// The hash chain over op records, and its verification.
//
// The chain reads no op: the op type is a parameter. The hash is a parameter too:
// `link(previous, payload)` stands for the digest of the previous hash and the
// record's canonical payload.
module OpChain {
  import opened Wrappers

  type Hash = string

  // Sixty-four '0' characters: what the first record of a stream links to.
  function Genesis(): Hash {
    seq(64, _ => '0')
  }

  datatype Actor = Human(id: string) | Agent(model: string, version: string, id: string)

  datatype OpResult = Success | Failure(code: string, message: string)

  datatype OpRecord<O> = OpRecord(
    streamId: string, sequence: int, previousHash: Hash, hash: Hash,
    op: O, actor: Actor, timestamp: int, result: OpResult, promptId: Option<string>)

  // What the hash covers besides the previous hash: the 0-based index, the actor and
  // the provenance entry. The stream id is not part of it.
  datatype Payload<O> = Payload(
    index: int, actor: Actor, op: O, timestamp: int, promptId: Option<string>, result: OpResult)

  type Link<!O> = (Hash, Payload<O>) -> Hash

  function PayloadOf<O>(r: OpRecord<O>): Payload<O> {
    Payload(r.sequence - 1, r.actor, r.op, r.timestamp, r.promptId, r.result)
  }

  function ComputeHash<O>(link: Link<O>, r: OpRecord<O>): Hash {
    link(r.previousHash, PayloadOf(r))
  }

  // -- Verification ----------------------------------------------------------

  datatype ChainError =
    | OutOfOrder(expected: int, actual: int)
    | PreviousHashMismatch(sequence: int)
    | HashMismatch(sequence: int)

  // The first violation from a given head and expected sequence.
  function FirstViolation<O>(
      link: Link<O>, records: seq<OpRecord<O>>, previous: Hash, expected: int): Option<ChainError>
  {
    if records == [] then None else
    var r := records[0];
    if r.sequence != expected then Some(OutOfOrder(expected, r.sequence))
    else if r.previousHash != previous then Some(PreviousHashMismatch(r.sequence))
    else if ComputeHash(link, r) != r.hash then Some(HashMismatch(r.sequence))
    else FirstViolation(link, records[1..], r.hash, expected + 1)
  }

  method VerifyChain<O>(link: Link<O>, records: seq<OpRecord<O>>) returns (err: Option<ChainError>)
    ensures err == FirstViolation(link, records, Genesis(), 1)
    ensures err.None? <==> Chained(link, records)
    ensures err.Some? ==> exists i :: Breaks(link, records, i, err.value)
  {
    ChainedIs(link, records);
    FirstBreak(link, records);
    var previousHash := Genesis();
    var expectedSequence := 1;
    for i := 0 to |records|
      invariant FirstViolation(link, records, Genesis(), 1)
             == FirstViolation(link, records[i..], previousHash, expectedSequence)
    {
      var record := records[i];
      assert records[i..][1..] == records[i + 1..];
      if record.sequence != expectedSequence {
        return Some(OutOfOrder(expectedSequence, record.sequence));
      }
      if record.previousHash != previousHash {
        return Some(PreviousHashMismatch(record.sequence));
      }
      if ComputeHash(link, record) != record.hash {
        return Some(HashMismatch(record.sequence));
      }
      previousHash := record.hash;
      expectedSequence := expectedSequence + 1;
    }
    err := None;
  }

  function HeadOf<O>(records: seq<OpRecord<O>>): Hash {
    if records == [] then Genesis() else records[|records| - 1].hash
  }

  ghost predicate LinkedAt<O>(link: Link<O>, records: seq<OpRecord<O>>, i: nat)
    requires i < |records|
  {
    Linked(link, records[i], HeadOf(records[..i]), i + 1)
  }

  // Position by position: contiguous from 1, each record linked to the one before it.
  ghost predicate Chained<O>(link: Link<O>, records: seq<OpRecord<O>>) {
    forall i | 0 <= i < |records| :: LinkedAt(link, records, i)
  }

  function Prior<O>(records: seq<OpRecord<O>>, previous: Hash, i: nat): Hash
    requires i <= |records|
  {
    if i == 0 then previous else records[i - 1].hash
  }

  ghost predicate Linked<O>(link: Link<O>, r: OpRecord<O>, previous: Hash, sequence: int) {
    r.sequence == sequence && r.previousHash == previous && r.hash == ComputeHash(link, r)
  }

  ghost predicate ChainedFrom<O>(link: Link<O>, records: seq<OpRecord<O>>, previous: Hash, expected: int) {
    forall i | 0 <= i < |records| :: Linked(link, records[i], Prior(records, previous, i), expected + i)
  }

  lemma {:induction false} ChainedStep<O>(link: Link<O>, records: seq<OpRecord<O>>, previous: Hash, expected: int)
    requires records != []
    ensures ChainedFrom(link, records, previous, expected) <==>
      && Linked(link, records[0], previous, expected)
      && ChainedFrom(link, records[1..], records[0].hash, expected + 1)
  {
    var rest, first := records[1..], records[0];
    forall i | 0 < i < |records| ensures Prior(records, previous, i) == Prior(rest, first.hash, i - 1) {
    }
    if ChainedFrom(link, records, previous, expected) {
      assert Linked(link, records[0], Prior(records, previous, 0), expected + 0);
      forall i | 0 <= i < |rest| ensures Linked(link, rest[i], Prior(rest, first.hash, i), expected + 1 + i) {
        assert Linked(link, records[i + 1], Prior(records, previous, i + 1), expected + (i + 1));
      }
    }
    if Linked(link, first, previous, expected) && ChainedFrom(link, rest, first.hash, expected + 1) {
      forall i | 0 <= i < |records| ensures Linked(link, records[i], Prior(records, previous, i), expected + i) {
        if i > 0 {
          assert Linked(link, rest[i - 1], Prior(rest, first.hash, i - 1), expected + 1 + (i - 1));
        }
      }
    }
  }

  lemma {:induction false} ViolationFrom<O>(link: Link<O>, records: seq<OpRecord<O>>, previous: Hash, expected: int)
    ensures FirstViolation(link, records, previous, expected).None? <==> ChainedFrom(link, records, previous, expected)
    decreases |records|
  {
    if records != [] {
      ChainedStep(link, records, previous, expected);
      ViolationFrom(link, records[1..], records[0].hash, expected + 1);
    }
  }

  // The records before the i-th are linked one to the next, and it is not linked to them: out
  // of order, or in order but after another hash, or with a hash that is not its own.
  ghost predicate Breaks<O>(link: Link<O>, records: seq<OpRecord<O>>, i: int, err: ChainError) {
    BreaksFrom(link, records, Genesis(), 1, i, err)
  }

  ghost predicate BreaksFrom<O>(
    link: Link<O>, records: seq<OpRecord<O>>, previous: Hash, expected: int, i: int, err: ChainError)
  {
    && 0 <= i < |records| && ChainedFrom(link, records[..i], previous, expected)
    && var r, head := records[i], Prior(records, previous, i);
       match err
       case OutOfOrder(wanted, actual) => wanted == expected + i && actual == r.sequence && actual != wanted
       case PreviousHashMismatch(s) => s == r.sequence == expected + i && r.previousHash != head
       case HashMismatch(s) =>
         && s == r.sequence == expected + i && r.previousHash == head
         && r.hash != link(
              head, Payload(r.sequence - 1, r.actor, r.op, r.timestamp, r.promptId, r.result))
  }

  lemma {:induction false} BrokenAt<O>(link: Link<O>, records: seq<OpRecord<O>>, previous: Hash, expected: int)
    ensures var err := FirstViolation(link, records, previous, expected);
      err.Some? ==> exists i :: BreaksFrom(link, records, previous, expected, i, err.value)
    decreases |records|
  {
    var err := FirstViolation(link, records, previous, expected);
    if err.Some? {
      var r := records[0];
      if Linked(link, r, previous, expected) {
        BrokenAt(link, records[1..], r.hash, expected + 1);
        var i :| BreaksFrom(link, records[1..], r.hash, expected + 1, i, err.value);
        BreaksLater(link, records, previous, expected, i, err.value);
      } else {
        assert ChainedFrom(link, records[..0], previous, expected);
        assert BreaksFrom(link, records, previous, expected, 0, err.value);
      }
    }
  }

  lemma {:induction false} FirstBreak<O>(link: Link<O>, records: seq<OpRecord<O>>)
    ensures var err := FirstViolation(link, records, Genesis(), 1);
      err.Some? ==> exists i :: Breaks(link, records, i, err.value)
  {
    BrokenAt(link, records, Genesis(), 1);
    var err := FirstViolation(link, records, Genesis(), 1);
    if err.Some? {
      var i :| BreaksFrom(link, records, Genesis(), 1, i, err.value);
      assert Breaks(link, records, i, err.value);
    }
  }

  lemma {:induction false} BreaksLater<O>(
    link: Link<O>, records: seq<OpRecord<O>>, previous: Hash, expected: int, i: int, err: ChainError)
    requires records != [] && Linked(link, records[0], previous, expected)
    requires BreaksFrom(link, records[1..], records[0].hash, expected + 1, i, err)
    ensures BreaksFrom(link, records, previous, expected, i + 1, err)
  {
    var front := records[..i + 1];
    assert front[1..] == records[1..][..i];
    ChainedStep(link, front, previous, expected);
    assert Prior(records, previous, i + 1) == Prior(records[1..], records[0].hash, i);
  }

  lemma {:induction false} HeadIsPrior<O>(records: seq<OpRecord<O>>, i: nat)
    requires i <= |records|
    ensures HeadOf(records[..i]) == Prior(records, Genesis(), i)
  {
  }

  lemma {:induction false} ChainedIsFrom<O>(link: Link<O>, records: seq<OpRecord<O>>)
    requires ChainedFrom(link, records, Genesis(), 1)
    ensures Chained(link, records)
  {
    forall i | 0 <= i < |records| ensures LinkedAt(link, records, i) {
      HeadIsPrior(records, i);
      assert Linked(link, records[i], Prior(records, Genesis(), i), 1 + i);
    }
  }

  lemma {:induction false} FromIsChained<O>(link: Link<O>, records: seq<OpRecord<O>>)
    requires Chained(link, records)
    ensures ChainedFrom(link, records, Genesis(), 1)
  {
    forall i | 0 <= i < |records| ensures Linked(link, records[i], Prior(records, Genesis(), i), 1 + i) {
      HeadIsPrior(records, i);
      assert LinkedAt(link, records, i);
    }
  }

  // No violation means every record is in its place, and conversely.
  lemma {:induction false} ChainedIs<O>(link: Link<O>, records: seq<OpRecord<O>>)
    ensures FirstViolation(link, records, Genesis(), 1).None? <==> Chained(link, records)
  {
    ViolationFrom(link, records, Genesis(), 1);
    if Chained(link, records) {
      FromIsChained(link, records);
    }
    if ChainedFrom(link, records, Genesis(), 1) {
      ChainedIsFrom(link, records);
    }
  }

  lemma {:induction false} ChainedSnoc<O>(link: Link<O>, records: seq<OpRecord<O>>, r: OpRecord<O>)
    ensures Chained(link, records + [r]) <==>
      Chained(link, records) && Linked(link, r, HeadOf(records), |records| + 1)
  {
    var all := records + [r];
    forall i | 0 <= i <= |records| ensures all[..i] == records[..i] {
    }
    assert records[..|records|] == records;
    if Chained(link, all) {
      assert LinkedAt(link, all, |records|);
      forall i | 0 <= i < |records| ensures LinkedAt(link, records, i) {
        assert LinkedAt(link, all, i);
      }
    }
    if Chained(link, records) && Linked(link, r, HeadOf(records), |records| + 1) {
      forall i | 0 <= i < |all| ensures LinkedAt(link, all, i) {
        if i < |records| { assert LinkedAt(link, records, i); }
      }
    }
  }

  lemma {:induction false} ChainedPrefix<O>(link: Link<O>, records: seq<OpRecord<O>>, k: nat)
    requires Chained(link, records) && k <= |records|
    ensures Chained(link, records[..k])
  {
    forall i | 0 <= i < k ensures LinkedAt(link, records[..k], i) {
      assert LinkedAt(link, records, i);
      assert records[..k][..i] == records[..i];
    }
  }

  // -- What the chain protects -----------------------------------------------

  ghost predicate Injective<O(!new)>(link: Link<O>) {
    forall a, b, p, q :: link(a, p) == link(b, q) ==> a == b && p == q
  }

  // Everything of a record but its stream id.
  predicate SameHashed<O(==)>(a: OpRecord<O>, b: OpRecord<O>) {
    && a.sequence == b.sequence && a.op == b.op && a.actor == b.actor && a.timestamp == b.timestamp
    && a.promptId == b.promptId && a.result == b.result && a.previousHash == b.previousHash && a.hash == b.hash
  }

  // Two verified chains that end in the same hash are one history.
  lemma {:induction false} SameHeadSameHistory<O(!new)>(link: Link<O>, a: seq<OpRecord<O>>, b: seq<OpRecord<O>>)
    requires Injective(link) && Chained(link, a) && Chained(link, b)
    requires a != [] && b != [] && HeadOf(a) == HeadOf(b)
    ensures |a| == |b|
    ensures forall i | 0 <= i < |a| :: SameHashed(a[i], b[i])
    decreases |a|
  {
    var m, n := |a| - 1, |b| - 1;
    assert LinkedAt(link, a, m) && LinkedAt(link, b, n);
    assert PayloadOf(a[m]) == PayloadOf(b[n]) && a[m].previousHash == b[n].previousHash;
    if m > 0 {
      ChainedPrefix(link, a, m);
      ChainedPrefix(link, b, n);
      SameHeadSameHistory(link, a[..m], b[..n]);
      forall i | 0 <= i < m ensures SameHashed(a[i], b[i]) {
        assert SameHashed(a[..m][i], b[..n][i]);
      }
    }
  }

  // Overwriting a hashed field of any record is caught, or the head moves.
  lemma {:induction false} TamperEvidence<O(!new)>(
    link: Link<O>, records: seq<OpRecord<O>>, i: nat, forged: OpRecord<O>)
    requires Injective(link) && Chained(link, records) && i < |records|
    ensures SameHashed(records[i], forged) <==>
      Chained(link, records[i := forged]) && HeadOf(records[i := forged]) == HeadOf(records)
  {
    var altered := records[i := forged];
    if SameHashed(records[i], forged) {
      forall k | 0 <= k < |altered| ensures LinkedAt(link, altered, k) {
        assert LinkedAt(link, records, k);
        assert HeadOf(altered[..k]) == HeadOf(records[..k]);
      }
    }
    if Chained(link, altered) && HeadOf(altered) == HeadOf(records) {
      SameHeadSameHistory(link, records, altered);
      assert SameHashed(records[i], altered[i]);
    }
  }

  // The stream a record belongs to is not hashed: relabelling any record passes.
  lemma {:induction false} StreamIdUnprotected<O>(link: Link<O>, records: seq<OpRecord<O>>, i: nat, streamId: string)
    requires Chained(link, records) && i < |records|
    ensures Chained(link, records[i := records[i].(streamId := streamId)])
    ensures HeadOf(records[i := records[i].(streamId := streamId)]) == HeadOf(records)
  {
    var altered := records[i := records[i].(streamId := streamId)];
    forall k | 0 <= k < |altered| ensures LinkedAt(link, altered, k) {
      assert LinkedAt(link, records, k);
      assert HeadOf(altered[..k]) == HeadOf(records[..k]);
    }
  }

  // An idealised digest: no collisions, and never the genesis value.
  ghost predicate Sound<O(!new)>(link: Link<O>) {
    Injective(link) && forall a, p :: link(a, p) != Genesis()
  }

  // The head determines the history's length, so a head seen again is no ABA.
  lemma {:induction false} HeadsDiffer<O(!new)>(link: Link<O>, records: seq<OpRecord<O>>, k: nat)
    requires Sound(link) && Chained(link, records) && k < |records|
    ensures HeadOf(records[..k]) != HeadOf(records)
  {
    assert LinkedAt(link, records, |records| - 1);
    if k > 0 && HeadOf(records[..k]) == HeadOf(records) {
      ChainedPrefix(link, records, k);
      SameHeadSameHistory(link, records[..k], records);
      assert false;
    }
  }
}
