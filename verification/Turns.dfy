// Steps taken one after another, each on what the one before it left.
module Turns {
  import opened Wrappers

  type Act<!O, !S, !E> = (O, S) -> Result<S, E>

  // The states between the steps.
  ghost predicate InTurn<O, S, E>(act: Act<O, S, E>, steps: seq<O>, states: seq<S>) {
    |states| == |steps| + 1 && forall i | 0 <= i < |steps| :: act(steps[i], states[i]) == Ok(states[i + 1])
  }

  ghost predicate GoesThrough<O, S(!new), E>(act: Act<O, S, E>, steps: seq<O>, start: S, end: S) {
    exists states :: InTurn(act, steps, states) && states[0] == start && states[|steps|] == end
  }

  // All steps before the one at `i` go through, and that one is refused.
  ghost predicate StopsAt<O, S(!new), E>(act: Act<O, S, E>, steps: seq<O>, start: S, i: int) {
    && 0 <= i < |steps|
    && exists state :: GoesThrough(act, steps[..i], start, state) && act(steps[i], state).Err?
  }

  lemma {:induction false} NoStep<O, S(!new), E>(act: Act<O, S, E>, start: S, end: S)
    ensures GoesThrough(act, [], start, end) <==> start == end
  {
    if start == end {
      assert InTurn(act, [], [start]);
    }
  }

  lemma {:induction false} FirstStep<O, S(!new), E>(act: Act<O, S, E>, step: O, steps: seq<O>, start: S, end: S)
    ensures GoesThrough(act, [step] + steps, start, end) <==>
      act(step, start).Ok? && GoesThrough(act, steps, act(step, start).value, end)
  {
    var all := [step] + steps;
    if states :| InTurn(act, all, states) && states[0] == start && states[|all|] == end {
      assert act(all[0], states[0]) == Ok(states[1]);
      forall i | 0 <= i < |steps| ensures act(steps[i], states[1..][i]) == Ok(states[1..][i + 1]) {
        assert act(all[i + 1], states[i + 1]) == Ok(states[i + 2]);
      }
      assert InTurn(act, steps, states[1..]);
    }
    if act(step, start).Ok? && GoesThrough(act, steps, act(step, start).value, end) {
      var rest :| InTurn(act, steps, rest) && rest[0] == act(step, start).value && rest[|steps|] == end;
      var states := [start] + rest;
      forall i | 0 <= i < |all| ensures act(all[i], states[i]) == Ok(states[i + 1]) {
        if i > 0 { assert act(steps[i - 1], rest[i - 1]) == Ok(rest[i]); }
      }
      assert InTurn(act, all, states);
    }
  }

  // Where a list of steps stops, after its first.
  lemma {:induction false} StopsLater<O, S(!new), E>(act: Act<O, S, E>, step: O, steps: seq<O>, start: S, i: int)
    ensures StopsAt(act, [step] + steps, start, i) <==>
      if act(step, start).Err? then i == 0 else StopsAt(act, steps, act(step, start).value, i - 1)
  {
    var all := [step] + steps;
    if i == 0 {
      assert all[..0] == [];
      NoStep(act, start, start);
      forall state | GoesThrough(act, all[..0], start, state) ensures state == start {
        NoStep(act, start, state);
      }
    } else if 0 < i < |all| {
      assert all[..i] == [step] + steps[..i - 1] && all[i] == steps[i - 1];
      forall state
        ensures GoesThrough(act, all[..i], start, state) <==>
          act(step, start).Ok? && GoesThrough(act, steps[..i - 1], act(step, start).value, state)
      {
        FirstStep(act, step, steps[..i - 1], start, state);
      }
    }
  }
}
