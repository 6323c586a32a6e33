// The server-driven session: one tree, one inbound event at a time. An event is checked
// by shape, the host answers it with ops, and the tree advances only when all of them
// pass the gate and apply.
module Driver {
  import opened Wrappers
  import opened Tree
  import Ops
  import ApplySafety
  import opened Turns

  datatype Event = Event(connId: string, nodeId: Id, event: string)

  datatype Reason = UnknownNode | IllegitimateEvent | DispatchDenied | CapabilityDenied | HandlerPanicked

  datatype Reject = Reject(reason: Reason, nodeId: Id, missing: set<string>)

  // What the host's handler did with an event: its own state is its own business.
  datatype Answer = Produced(ops: seq<Ops.Op>) | Denied | Panicked

  // The capabilities an op introduces and the gate withholds.
  type Gate = Ops.Op -> set<string>

  function LegitimateEvents(tag: string): set<string> {
    match tag
    case "Button" => {"click"}
    case "Select" => {"change"}
    case "Form" => {"submit", "change", "input"}
    case "Filters" => {"change", "input", "click"}
    case "FileUpload" => {"change", "file-read"}
    case "Tabs" => {"click", "change"}
    case "Stepper" => {"click", "change"}
    case "Disclosure" => {"click", "change", "toggle"}
    case _ => {}
  }

  // -- The session's own search ----------------------------------------------

  // A node, then each of its sub-nodes in turn: the kind's positions, then the placeholders.
  function FindSeen(x: Id, n: Node): Option<Node>
    decreases n
  {
    if n.id == x then Some(n) else
    var inKids := FindSeenIn(x, n.kind.kids);
    if inKids.Some? then inKids else FindSeenState(x, n.state)
  }

  function FindSeenIn(x: Id, s: seq<Node>): Option<Node>
    decreases s
  {
    if s == [] then None else
    var first := FindSeen(x, s[0]);
    if first.Some? then first else FindSeenIn(x, s[1..])
  }

  function FindSeenState(x: Id, s: State): Option<Node>
    decreases s
  {
    match s
    case NoState => None
    case State(_, onLoading, onEmpty) =>
      var first := if onLoading.None? then None else FindSeen(x, onLoading.value);
      if first.Some? then first
      else if onEmpty.None? then None else FindSeen(x, onEmpty.value)
  }

  // It finds what the engine's search by position finds, on every tree.
  lemma {:induction false} SeenIsFound(x: Id, n: Node)
    ensures FindSeen(x, n) == FindNode(x, n)
    decreases Size(n)
  {
    SlotSizes(n);
    if n.id != x {
      var slots := Slots(n);
      SeenInSlots(x, n);
      forall i | 0 <= i < |slots| ensures FindSeen(x, slots[i]) == FindNode(x, slots[i]) {
        SeenIsFound(x, slots[i]);
      }
      match FirstHolder(x, slots)
      case None => SeenNowhere(x, slots);
      case Some(i) =>
        SeenAt(x, slots, i);
        FoundInSlot(x, n, i);
    }
  }

  lemma {:induction false} FoundInSlot(x: Id, n: Node, i: nat)
    requires n.id != x && FirstHolder(x, Slots(n)) == Some(i)
    ensures i < |Slots(n)| && FindNode(x, n) == FindNode(x, Slots(n)[i])
  {
    SlotSizes(n);
    var q := FirstPath(x, Slots(n)[i]).value;
    assert ([i] + q)[1..] == q;
  }

  lemma {:induction false} SeenNowhere(x: Id, s: seq<Node>)
    requires forall i | 0 <= i < |s| :: FindSeen(x, s[i]) == None
    ensures FindSeenIn(x, s) == None
  {
    if s != [] {
      var rest := s[1..];
      assert forall i | 0 <= i < |rest| :: rest[i] == s[i + 1];
      SeenNowhere(x, rest);
    }
  }

  lemma {:induction false} SeenAt(x: Id, s: seq<Node>, i: nat)
    requires i < |s| && FindSeen(x, s[i]).Some? && forall j | 0 <= j < i :: FindSeen(x, s[j]) == None
    ensures FindSeenIn(x, s) == FindSeen(x, s[i])
  {
    if i > 0 {
      var rest := s[1..];
      assert forall j | 0 <= j < |rest| :: rest[j] == s[j + 1];
      SeenAt(x, rest, i - 1);
    }
  }

  lemma {:induction false} SeenInSlots(x: Id, n: Node)
    requires n.id != x
    ensures FindSeen(x, n) == FindSeenIn(x, Slots(n))
  {
    SeenConcat(x, n.kind.kids, StateNodes(n.state));
    SeenState(x, n.state);
  }

  lemma {:induction false} SeenState(x: Id, s: State)
    ensures FindSeenState(x, s) == FindSeenIn(x, StateNodes(s))
  {
    if s.State? {
      SeenConcat(x, OptSeq(s.onLoading), OptSeq(s.onEmpty));
      SeenOpt(x, s.onLoading);
      SeenOpt(x, s.onEmpty);
    }
  }

  lemma {:induction false} SeenOpt(x: Id, o: Option<Node>)
    ensures FindSeenIn(x, OptSeq(o)) == if o.None? then None else FindSeen(x, o.value)
  {
    if o.Some? {
      assert OptSeq(o)[1..] == [];
    }
  }

  lemma {:induction false} SeenConcat(x: Id, s: seq<Node>, t: seq<Node>)
    ensures FindSeenIn(x, s + t) == if FindSeenIn(x, s).Some? then FindSeenIn(x, s) else FindSeenIn(x, t)
  {
    if s == [] {
      assert s + t == t;
    } else {
      assert (s + t)[1..] == s[1..] + t;
      SeenConcat(x, s[1..], t);
    }
  }

  // -- One step --------------------------------------------------------------

  // The refusals decided before the host is asked.
  function ShapeReject(tree: Node, ev: Event): Option<Reject> {
    match FindSeen(ev.nodeId, tree)
    case None => Some(Reject(UnknownNode, ev.nodeId, {}))
    case Some(n) =>
      if ev.event in LegitimateEvents(n.kind.tag) then None
      else Some(Reject(IllegitimateEvent, ev.nodeId, {}))
  }

  function GateReject(gate: Option<Gate>, ev: Event, ops: seq<Ops.Op>): Option<Reject> {
    if gate.None? || ops == [] then None
    else if gate.value(ops[0]) != {} then Some(Reject(CapabilityDenied, ev.nodeId, gate.value(ops[0])))
    else GateReject(gate, ev, ops[1..])
  }

  // The ops a step commits, or why it commits none.
  function StepOutcome(tree: Node, gate: Option<Gate>, ev: Event, answer: Answer): Result<seq<Ops.Op>, Reject> {
    match ShapeReject(tree, ev)
    case Some(reject) => Err(reject)
    case None =>
      match answer
      case Panicked => Err(Reject(HandlerPanicked, ev.nodeId, {}))
      case Denied => Err(Reject(DispatchDenied, ev.nodeId, {}))
      case Produced(ops) =>
        match GateReject(gate, ev, ops)
        case Some(reject) => Err(reject)
        case None =>
          if Ops.ApplyScript(ops, tree).Err? then Err(Reject(DispatchDenied, ev.nodeId, {})) else Ok(ops)
  }

  lemma {:induction false} GateStep(gate: Option<Gate>, ev: Event, ops: seq<Ops.Op>, i: nat)
    requires gate.Some? && i < |ops|
    ensures GateReject(gate, ev, ops[i..]) ==
      var missing := gate.value(ops[i]);
      if missing != {} then Some(Reject(CapabilityDenied, ev.nodeId, missing)) else GateReject(gate, ev, ops[i + 1..])
  {
    assert ops[i..][1..] == ops[i + 1..];
  }

  lemma {:induction false} ScriptStep(ops: seq<Ops.Op>, i: nat, next: Node)
    requires i < |ops|
    ensures Ops.ApplyScript(ops[i..], next) ==
      var applied := Ops.Apply(ops[i], next);
      if applied.Err? then applied else Ops.ApplyScript(ops[i + 1..], applied.value)
  {
    assert ops[i..][1..] == ops[i + 1..];
  }

  // -- What a step answers, without the order it asks in ---------------------

  // The events a kind raises, read from the event's side.
  predicate Raises(tag: string, event: string) {
    match event
    case "click" => tag in {"Button", "Disclosure", "Filters", "Stepper", "Tabs"}
    case "change" => tag in {"Disclosure", "FileUpload", "Filters", "Form", "Select", "Stepper", "Tabs"}
    case "input" => tag in {"Filters", "Form"}
    case "submit" => tag == "Form"
    case "toggle" => tag == "Disclosure"
    case "file-read" => tag == "FileUpload"
    case _ => false
  }

  lemma {:induction false} LegitimateIs(tag: string, event: string)
    ensures event in LegitimateEvents(tag) <==> Raises(tag, event)
  {
  }

  // The event names a node of the tree that raises it.
  ghost predicate Addressed(tree: Node, ev: Event) {
    FindNode(ev.nodeId, tree).Some? && Raises(FindNode(ev.nodeId, tree).value.kind.tag, ev.event)
  }

  // Each op is accepted on the tree the one before it left, the last of them leaving `next`.
  ghost predicate Leads(ops: seq<Ops.Op>, tree: Node, next: Node) {
    GoesThrough(Ops.Apply, ops, tree, next)
  }

  // A script that runs is a chain of accepted ops, and the other way round.
  lemma {:induction false} ScriptLeads(ops: seq<Ops.Op>, tree: Node, next: Node)
    ensures Ops.ApplyScript(ops, tree) == Ok(next) <==> Leads(ops, tree, next)
    decreases |ops|
  {
    if ops == [] {
      NoStep(Ops.Apply, tree, next);
    } else {
      assert ops == [ops[0]] + ops[1..];
      FirstStep(Ops.Apply, ops[0], ops[1..], tree, next);
      var first := Ops.Apply(ops[0], tree);
      if first.Ok? {
        ScriptLeads(ops[1..], first.value, next);
      }
    }
  }

  // The first op the gate withholds a capability from.
  ghost predicate FirstWithheld(gate: Gate, ops: seq<Ops.Op>, i: int) {
    0 <= i < |ops| && gate(ops[i]) != {} && forall k | 0 <= k < i :: gate(ops[k]) == {}
  }

  // What it withholds there.
  ghost predicate Withholds(gate: Option<Gate>, ops: seq<Ops.Op>, missing: set<string>) {
    gate.Some? && exists i :: FirstWithheld(gate.value, ops, i) && missing == gate.value(ops[i])
  }

  ghost predicate Passes(gate: Option<Gate>, ops: seq<Ops.Op>) {
    gate.Some? ==> forall k | 0 <= k < |ops| :: gate.value(ops[k]) == {}
  }

  lemma {:induction false} GateRejects(gate: Option<Gate>, ev: Event, ops: seq<Ops.Op>)
    ensures GateReject(gate, ev, ops).None? <==> Passes(gate, ops)
    ensures var r := GateReject(gate, ev, ops);
      r.Some? ==>
        r == Some(Reject(CapabilityDenied, ev.nodeId, r.value.missing)) && Withholds(gate, ops, r.value.missing)
  {
    if gate.Some? && ops != [] {
      if gate.value(ops[0]) != {} {
        assert FirstWithheld(gate.value, ops, 0);
      } else {
        GateRejects(gate, ev, ops[1..]);
        assert forall k | 0 < k < |ops| :: ops[k] == ops[1..][k - 1];
        if GateReject(gate, ev, ops).Some? {
          var i :| FirstWithheld(gate.value, ops[1..], i)
            && GateReject(gate, ev, ops).value.missing == gate.value(ops[1..][i]);
          assert ops[i + 1] == ops[1..][i];
          assert FirstWithheld(gate.value, ops, i + 1);
        }
      }
    }
  }

  lemma {:induction false} OneWithheld(gate: Option<Gate>, ops: seq<Ops.Op>, m: set<string>, m': set<string>)
    requires Withholds(gate, ops, m) && Withholds(gate, ops, m')
    ensures m == m' && !Passes(gate, ops)
  {
    var i :| FirstWithheld(gate.value, ops, i) && m == gate.value(ops[i]);
    var k :| FirstWithheld(gate.value, ops, k) && m' == gate.value(ops[k]);
    assert i == k;
  }

  // What one answer to an event means: for a commit and for each of the five refusals,
  // exactly when it is given.
  ghost predicate Means(
    tree: Node, gate: Option<Gate>, ev: Event, answer: Answer, next: Node, r: Result<seq<Ops.Op>, Reject>)
  {
    match r
    case Ok(ops) =>
      Addressed(tree, ev) && answer == Produced(ops) && Passes(gate, ops) && Leads(ops, tree, next)
    case Err(reject) =>
      && next == tree && reject.nodeId == ev.nodeId
      && (reject.reason != CapabilityDenied ==> reject.missing == {})
      && match reject.reason
         case UnknownNode => Occ(ev.nodeId, tree) == 0
         case IllegitimateEvent => Occ(ev.nodeId, tree) > 0 && !Addressed(tree, ev)
         case HandlerPanicked => Addressed(tree, ev) && answer == Panicked
         case CapabilityDenied =>
           Addressed(tree, ev) && answer.Produced? && Withholds(gate, answer.ops, reject.missing)
         case DispatchDenied =>
           && Addressed(tree, ev)
           && (answer == Denied
               || (answer.Produced? && Passes(gate, answer.ops) && forall t :: !Leads(answer.ops, tree, t)))
  }

  // What a step may answer, with the tree it leaves.
  ghost function Meanings(
    tree: Node, gate: Option<Gate>, ev: Event, answer: Answer): iset<(Node, Result<seq<Ops.Op>, Reject>)>
  {
    iset next, r | Means(tree, gate, ev, answer, next, r) :: (next, r)
  }

  lemma {:induction false} StepMeans(
    tree: Node, gate: Option<Gate>, ev: Event, answer: Answer, next: Node)
    requires match StepOutcome(tree, gate, ev, answer)
      case Err(_) => next == tree
      case Ok(ops) => Ops.ApplyScript(ops, tree) == Ok(next)
    ensures Means(tree, gate, ev, answer, next, StepOutcome(tree, gate, ev, answer))
  {
    SeenIsFound(ev.nodeId, tree);
    if FindNode(ev.nodeId, tree).Some? {
      LegitimateIs(FindNode(ev.nodeId, tree).value.kind.tag, ev.event);
    }
    if answer.Produced? {
      GateRejects(gate, ev, answer.ops);
      forall t ensures Ops.ApplyScript(answer.ops, tree) == Ok(t) <==> Leads(answer.ops, tree, t) {
        ScriptLeads(answer.ops, tree, t);
      }
    }
  }

  lemma {:induction false} MeansThroughout(tree: Node, gate: Option<Gate>, ev: Event, answer: Answer)
    ensures var r := StepOutcome(tree, gate, ev, answer);
      if r.Err? then Means(tree, gate, ev, answer, tree, r)
      else forall next | Ops.ApplyScript(r.value, tree) == Ok(next) :: Means(tree, gate, ev, answer, next, r)
  {
    var r := StepOutcome(tree, gate, ev, answer);
    if r.Err? {
      StepMeans(tree, gate, ev, answer, tree);
    } else {
      forall next | Ops.ApplyScript(r.value, tree) == Ok(next) ensures Means(tree, gate, ev, answer, next, r) {
        StepMeans(tree, gate, ev, answer, next);
      }
    }
  }

  // One answer has that meaning, so each of them is given exactly when its meaning holds.
  lemma {:induction false} OneMeaning(
    tree: Node, gate: Option<Gate>, ev: Event, answer: Answer, next: Node, r: Result<seq<Ops.Op>, Reject>,
    next': Node, r': Result<seq<Ops.Op>, Reject>)
    requires Means(tree, gate, ev, answer, next, r) && Means(tree, gate, ev, answer, next', r')
    ensures r == r' && next == next'
  {
    if answer.Produced? {
      ScriptLeads(answer.ops, tree, next);
      ScriptLeads(answer.ops, tree, next');
      if r.Err? && r'.Err? && r.error.reason == r'.error.reason == CapabilityDenied {
        OneWithheld(gate, answer.ops, r.error.missing, r'.error.missing);
      }
    }
  }

  class Session {
    var tree: Node
    const gate: Option<Gate>

    constructor (tree: Node, gate: Option<Gate>)
      ensures this.tree == tree && this.gate == gate
    {
      this.tree, this.gate := tree, gate;
    }

    // All or nothing: the tree is the old one, or the old one with every op applied.
    method Step(ev: Event, answer: Answer) returns (r: Result<seq<Ops.Op>, Reject>)
      modifies this
      ensures (tree, r) in Meanings(old(tree), gate, ev, answer)
      ensures ApplySafety.WellFormed(old(tree)) ==> ApplySafety.WellFormed(tree)
    {
      MeansThroughout(tree, gate, ev, answer);
      var shape := ShapeReject(tree, ev);
      if shape.Some? {
        return Err(shape.value);
      }
      match answer {
        case Panicked => return Err(Reject(HandlerPanicked, ev.nodeId, {}));
        case Denied => return Err(Reject(DispatchDenied, ev.nodeId, {}));
        case Produced(ops) =>
          assert ops[0..] == ops && ops[|ops|..] == [];
          if gate.Some? {
            for i := 0 to |ops|
              invariant tree == old(tree)
              invariant GateReject(gate, ev, ops) == GateReject(gate, ev, ops[i..])
            {
              var missing := gate.value(ops[i]);
              GateStep(gate, ev, ops, i);
              if missing != {} {
                return Err(Reject(CapabilityDenied, ev.nodeId, missing));
              }
            }
          }
          var next := tree;
          for i := 0 to |ops|
            invariant tree == old(tree)
            invariant Ops.ApplyScript(ops, tree) == Ops.ApplyScript(ops[i..], next)
            invariant ApplySafety.WellFormed(tree) ==> ApplySafety.WellFormed(next)
          {
            ScriptStep(ops, i, next);
            var applied := Ops.Apply(ops[i], next);
            if applied.Err? {
              return Err(Reject(DispatchDenied, ev.nodeId, {}));
            }
            if ApplySafety.WellFormed(tree) { ApplySafety.ApplyKeepsWellFormed(ops[i], next); }
            next := applied.value;
          }
          tree := next;
          r := Ok(ops);
      }
    }
  }
}
