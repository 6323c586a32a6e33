// The clone verbs: a subtree copied into a tree with fresh ids for every id already
// taken there, then placed by an ordinary insert.
module Clone {
  import opened Wrappers
  import opened Tree
  import opened Ops
  import opened Placements
  import opened Decimal

  // -- Minting ---------------------------------------------------------------

  // The ids a strategy tries, in order: the numbers of a prefix, a copy suffix first bare.
  datatype Names = Derived(oldId: Id) | Sequential(prefix: string)

  function Candidate(names: Names, n: nat): Id {
    match names
    case Derived(oldId) => if n <= 1 then oldId + "-copy" else oldId + "-copy-" + Itoa(n)
    case Sequential(prefix) => prefix + "-" + Itoa(n)
  }

  lemma {:induction false} CandidateInjective(names: Names, m: nat, n: nat)
    requires 1 <= m < n
    ensures Candidate(names, m) != Candidate(names, n)
  {
    var a, b := Candidate(names, m), Candidate(names, n);
    match names
    case Derived(oldId) =>
      if m == 1 {
        assert |a| == |oldId| + 5 && |b| > |oldId| + 6;
      } else if a == b {
        Suffixes(oldId + "-copy-", Itoa(m), Itoa(n));
        ItoaInjective(m, n);
      }
    case Sequential(prefix) =>
      if a == b {
        Suffixes(prefix + "-", Itoa(m), Itoa(n));
        ItoaInjective(m, n);
      }
  }

  lemma {:induction false} Suffixes(p: string, s: string, t: string)
    requires p + s == p + t
    ensures s == t
  {
    assert s == (p + s)[|p|..] && t == (p + t)[|p|..];
  }

  // The first number from `n` whose candidate is free. It exists for any taken set: each
  // miss uses up one taken id for good.
  function Probe(names: Names, taken: set<Id>, n: nat): (r: nat)
    requires n >= 1
    ensures r >= n && Candidate(names, r) !in taken
    ensures forall k | n <= k < r :: Candidate(names, k) in taken
    decreases |taken|
  {
    var c := Candidate(names, n);
    if c !in taken then n else
      var r := Probe(names, taken - {c}, n + 1);
      CandidateInjective(names, n, r);
      r
  }

  // The probe is the first free candidate.
  lemma {:induction false} ProbeStep(names: Names, taken: set<Id>, n: nat, m: nat)
    requires 1 <= n <= m
    requires forall k | n <= k < m :: Candidate(names, k) in taken
    ensures Probe(names, taken, n) >= m
    ensures Candidate(names, m) !in taken ==> Probe(names, taken, n) == m
  {
  }

  // The bare copy suffix if that is free, else the first free number from two on after it.
  ghost predicate IsCopyName(oldId: Id, taken: set<Id>, id: Id) {
    if oldId + "-copy" !in taken then id == oldId + "-copy" else exists n :: IsCopyNumber(oldId, taken, id, n)
  }

  ghost predicate IsCopyNumber(oldId: Id, taken: set<Id>, id: Id, n: int) {
    && n >= 2 && id == oldId + "-copy-" + Itoa(n)
    && forall k | 2 <= k < n :: oldId + "-copy-" + Itoa(k) in taken
  }

  lemma {:induction false} CopyNamed(oldId: Id, taken: set<Id>)
    ensures IsCopyName(oldId, taken, Candidate(Derived(oldId), Probe(Derived(oldId), taken, 1)))
  {
    var n := Probe(Derived(oldId), taken, 1);
    if oldId + "-copy" in taken {
      assert Candidate(Derived(oldId), 1) == oldId + "-copy";
      forall k | 2 <= k < n ensures oldId + "-copy-" + Itoa(k) in taken {
        assert Candidate(Derived(oldId), k) in taken;
      }
      assert IsCopyNumber(oldId, taken, Candidate(Derived(oldId), n), n);
    } else {
      ProbeStep(Derived(oldId), taken, 1, 1);
    }
  }

  // The first free number of the prefix after those the counter has passed.
  ghost predicate IsNumbered(prefix: string, taken: set<Id>, id: Id, before: nat, after: nat) {
    && after > before && id == prefix + "-" + Itoa(after)
    && forall k | before < k < after :: prefix + "-" + Itoa(k) in taken
  }

  lemma {:induction false} SequenceNamed(prefix: string, taken: set<Id>, before: nat)
    ensures var after := Probe(Sequential(prefix), taken, before + 1);
      IsNumbered(prefix, taken, Candidate(Sequential(prefix), after), before, after)
  {
    var after := Probe(Sequential(prefix), taken, before + 1);
    forall k | before < k < after ensures prefix + "-" + Itoa(k) in taken {
      assert Candidate(Sequential(prefix), k) in taken;
    }
  }

  // Probing until a candidate is free.
  method DerivedIds(oldId: Id, taken: set<Id>) returns (id: Id)
    ensures id == Candidate(Derived(oldId), Probe(Derived(oldId), taken, 1))
    ensures id !in taken && IsCopyName(oldId, taken, id)
  {
    CopyNamed(oldId, taken);
    var n := 1;
    ProbeStep(Derived(oldId), taken, 1, 1);
    while true
      invariant 1 <= n <= Probe(Derived(oldId), taken, 1)
      invariant forall k | 1 <= k < n :: Candidate(Derived(oldId), k) in taken
      decreases Probe(Derived(oldId), taken, 1) - n
    {
      var candidate := if n > 1 then oldId + "-copy-" + Itoa(n) else oldId + "-copy";
      if candidate !in taken {
        ProbeStep(Derived(oldId), taken, 1, n);
        return candidate;
      }
      ProbeStep(Derived(oldId), taken, 1, n + 1);
      n := n + 1;
    }
  }

  // One counter for all requests; it never goes back.
  class SequentialIds {
    const prefix: string
    var counter: nat

    constructor (prefix: string)
      ensures this.prefix == prefix && counter == 0
    {
      this.prefix, counter := prefix, 0;
    }

    method Fresh(taken: set<Id>) returns (id: Id)
      modifies this
      ensures counter == Probe(Sequential(prefix), taken, old(counter) + 1)
      ensures id == Candidate(Sequential(prefix), counter) && id !in taken
      ensures IsNumbered(prefix, taken, id, old(counter), counter)
    {
      SequenceNamed(prefix, taken, counter);
      ghost var first := counter + 1;
      while true
        invariant first == old(counter) + 1 && first <= counter + 1 <= Probe(Sequential(prefix), taken, first)
        invariant forall k | first <= k <= counter :: Candidate(Sequential(prefix), k) in taken
        decreases Probe(Sequential(prefix), taken, first) - counter
      {
        counter := counter + 1;
        var candidate := prefix + "-" + Itoa(counter);
        ProbeStep(Sequential(prefix), taken, first, counter);
        if candidate !in taken {
          return candidate;
        }
        ProbeStep(Sequential(prefix), taken, first, counter + 1);
      }
    }
  }

  // A strategy with its own state: given the state, the id to replace and the taken ids,
  // the next state and an id.
  type FreshIds<!S> = (S, Id, set<Id>) -> (S, Id)

  // What the seam asks of a strategy.
  ghost predicate Honest<S(!new)>(mint: FreshIds<S>) {
    forall s, oldId, taken :: mint(s, oldId, taken).1 !in taken
  }

  function DerivedStrategy(): FreshIds<()> {
    (s: (), oldId: Id, taken: set<Id>) => (s, Candidate(Derived(oldId), Probe(Derived(oldId), taken, 1)))
  }

  function SequentialStrategy(prefix: string): FreshIds<nat> {
    (counter: nat, oldId: Id, taken: set<Id>) =>
      (Probe(Sequential(prefix), taken, counter + 1),
       Candidate(Sequential(prefix), Probe(Sequential(prefix), taken, counter + 1)))
  }

  lemma {:induction false} StrategiesHonest(prefix: string)
    ensures Honest(DerivedStrategy()) && Honest(SequentialStrategy(prefix))
  {
  }

  // -- Renaming --------------------------------------------------------------

  type Renaming = map<Id, Id>

  function Renamed(rename: Renaming, x: Id): Id {
    if x in rename then rename[x] else x
  }

  // Every id the renaming names, rewritten throughout the subtree.
  function Remap(n: Node, rename: Renaming): Node
    decreases n
  {
    n.(id := Renamed(rename, n.id), kind := n.kind.(kids := RemapSeq(n.kind.kids, rename)),
       state := RemapState(n.state, rename))
  }

  function RemapSeq(s: seq<Node>, rename: Renaming): (r: seq<Node>)
    ensures |r| == |s|
    decreases s
  {
    if s == [] then [] else [Remap(s[0], rename)] + RemapSeq(s[1..], rename)
  }

  function RemapState(s: State, rename: Renaming): State
    decreases s
  {
    match s
    case NoState => NoState
    case State(own, onLoading, onEmpty) =>
      State(own, RemapOpt(onLoading, rename), RemapOpt(onEmpty, rename))
  }

  function RemapOpt(o: Option<Node>, rename: Renaming): Option<Node>
    decreases o
  {
    match o case None => None case Some(n) => Some(Remap(n, rename))
  }

  function IdSet(n: Node): set<Id> {
    set x | x in AllIds(n)
  }

  // The colliding ids in traversal order, each minted once.
  function RenameFrom<S>(
    mint: FreshIds<S>, state: S, existing: set<Id>, taken: set<Id>, ids: seq<Id>, rename: Renaming): Renaming
    decreases |ids|
  {
    if ids == [] then rename
    else if ids[0] !in existing || ids[0] in rename then
      RenameFrom(mint, state, existing, taken, ids[1..], rename)
    else
      var (next, minted) := mint(state, ids[0], taken);
      RenameFrom(mint, next, existing, taken + {minted}, ids[1..], rename[ids[0] := minted])
  }

  function RenamingFor<S>(mint: FreshIds<S>, state: S, targetRoot: Node, incoming: Node): Renaming {
    RenameFrom(
      mint, state, IdSet(targetRoot), IdSet(targetRoot) + IdSet(incoming), AllIds(incoming), map[])
  }

  function CloneFor<S>(mint: FreshIds<S>, state: S, targetRoot: Node, incoming: Node): Node {
    Remap(incoming, RenamingFor(mint, state, targetRoot, incoming))
  }

  method RemapForInsert<S>(mint: FreshIds<S>, start: S, targetRoot: Node, incoming: Node) returns (clone: Node)
    ensures clone == CloneFor(mint, start, targetRoot, incoming)
  {
    var existing := IdSet(targetRoot);
    var taken := existing + IdSet(incoming);
    var rename: Renaming := map[];
    var state := start;
    var ids := AllIds(incoming);
    for i := 0 to |ids|
      invariant RenamingFor(mint, start, targetRoot, incoming)
             == RenameFrom(mint, state, existing, taken, ids[i..], rename)
    {
      var oldId := ids[i];
      assert ids[i..][1..] == ids[i + 1..];
      if oldId in existing && oldId !in rename {
        var (next, minted) := mint(state, oldId, taken);
        state, taken, rename := next, taken + {minted}, rename[oldId := minted];
      }
    }
    if rename == map[] {
      RemapNothing(incoming);
      return incoming;
    }
    clone := Remap(incoming, rename);
  }

  lemma {:induction false} RemapNothing(n: Node)
    ensures Remap(n, map[]) == n
    decreases n
  {
    RemapSeqNothing(n.kind.kids);
    match n.state
    case NoState =>
    case State(_, onLoading, onEmpty) =>
      if onLoading.Some? { RemapNothing(onLoading.value); }
      if onEmpty.Some? { RemapNothing(onEmpty.value); }
      assert RemapOpt(onLoading, map[]) == onLoading && RemapOpt(onEmpty, map[]) == onEmpty;
  }

  lemma {:induction false} RemapSeqNothing(s: seq<Node>)
    ensures RemapSeq(s, map[]) == s
    decreases s
  {
    if s != [] {
      RemapNothing(s[0]);
      RemapSeqNothing(s[1..]);
    }
  }

  function DuplicateOpWith<S>(mint: FreshIds<S>, state: S, root: Node, source: Id, target: Target)
    : Result<Op, PlaceCode>
  {
    match FindNode(source, root)
    case None => Err(NoNode)
    case Some(sub) => PlaceOp(root, CloneFor(mint, state, root, sub), target)
  }

  function PasteOpWith<S>(mint: FreshIds<S>, state: S, targetRoot: Node, incoming: Node, target: Target)
    : Result<Op, PlaceCode>
  {
    PlaceOp(targetRoot, CloneFor(mint, state, targetRoot, incoming), target)
  }

  function DuplicateOp(root: Node, source: Id, target: Target): Result<Op, PlaceCode> {
    DuplicateOpWith(DerivedStrategy(), (), root, source, target)
  }

  function PasteOp(targetRoot: Node, incoming: Node, target: Target): Result<Op, PlaceCode> {
    PasteOpWith(DerivedStrategy(), (), targetRoot, incoming, target)
  }
}
