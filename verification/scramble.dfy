/** Generation of a random start layout (`Fifteen.generateStartState`): from
    the goal layout, draw random action indices and apply each drawn action
    whose move is legal until the requested number of moves has been made.
    The random draws are an explicit input sequence; the puzzle rules are a
    record of their goal layout, action table and transition function. */
module Scramble {
  import opened Wrappers
  import opened JavaInt

  /** The part of `FifteenRules` the scrambler uses: `getTerminateState`,
      `getActions` and `doAction`, the last giving `None` where the Java
      code returns null for an illegal move. */
  datatype Rules = Rules(
    terminateState: seq<Byte>,
    actions: seq<int>,
    doAction: (seq<Byte>, int) -> Option<seq<Byte>>)

  /** Every draw is an index into the action table, as
      `Random.nextInt(actions.length)` returns. */
  predicate ValidChoices(rules: Rules, choices: seq<nat>) {
    forall k :: 0 <= k < |choices| ==> choices[k] < |rules.actions|
  }

  /** Applies the actions in order; `None` as soon as one is rejected. */
  function ApplyAll(doAction: (seq<Byte>, int) -> Option<seq<Byte>>, state: seq<Byte>, acts: seq<int>): Option<seq<Byte>>
    decreases |acts|
  {
    if |acts| == 0 then Some(state)
    else match doAction(state, acts[0])
      case None => None
      case Some(next) => ApplyAll(doAction, next, acts[1..])
  }

  /** Reference walk: the actions accepted along the whole draw sequence when
      no move budget stops the walk. */
  function Walk(rules: Rules, state: seq<Byte>, choices: seq<nat>): seq<int>
    requires ValidChoices(rules, choices)
    decreases |choices|
  {
    if |choices| == 0 then []
    else
      var action := rules.actions[choices[0]];
      match rules.doAction(state, action)
      case None => Walk(rules, state, choices[1..])
      case Some(next) => [action] + Walk(rules, next, choices[1..])
  }

  /** How a scramble ends: with the requested moves made, with the supplied
      draws used up first (`remaining` moves still owed), or with the
      IllegalArgumentException `Random.nextInt(0)` throws when the rules offer
      no actions. `applied` lists the actions that were accepted. */
  datatype Scrambled =
    | Done(state: seq<Byte>, applied: seq<int>)
    | OutOfChoices(state: seq<Byte>, remaining: int, applied: seq<int>)
    | IllegalArgument

  function Prepend(action: int, r: Scrambled): Scrambled {
    match r
    case Done(s, applied) => Done(s, [action] + applied)
    case OutOfChoices(s, remaining, applied) => OutOfChoices(s, remaining, [action] + applied)
    case IllegalArgument => IllegalArgument
  }

  /** The scrambling loop from `state` with `stepCount` moves still to make. */
  function Scramble(rules: Rules, state: seq<Byte>, stepCount: int, choices: seq<nat>): (r: Scrambled)
    requires ValidChoices(rules, choices)
    ensures stepCount <= 0 ==> r == Done(state, [])
    ensures r.IllegalArgument? <==> stepCount > 0 && |rules.actions| == 0
    ensures r.Done? ==> |r.applied| == (if stepCount > 0 then stepCount else 0)
    ensures r.OutOfChoices? ==> 0 < r.remaining && |r.applied| + r.remaining == stepCount
    ensures !r.IllegalArgument? ==> ApplyAll(rules.doAction, state, r.applied) == Some(r.state)
    ensures !r.IllegalArgument? ==> forall a :: a in r.applied ==> a in rules.actions
    decreases |choices|
  {
    if stepCount <= 0 then Done(state, [])
    else if |rules.actions| == 0 then IllegalArgument
    else if |choices| == 0 then OutOfChoices(state, stepCount, [])
    else
      var action := rules.actions[choices[0]];
      match rules.doAction(state, action)
      case None => Scramble(rules, state, stepCount, choices[1..])
      case Some(next) => Prepend(action, Scramble(rules, next, stepCount - 1, choices[1..]))
  }

  /** `generateStartState(rules, swapCount)`: with no moves requested the goal
      layout itself; otherwise, once it returns, the goal layout after exactly
      `swapCount` accepted actions. */
  function GenerateStartState(rules: Rules, swapCount: int, choices: seq<nat>): (r: Scrambled)
    requires ValidChoices(rules, choices)
    ensures swapCount <= 0 ==> r == Done(rules.terminateState, [])
    ensures r.Done? ==> ApplyAll(rules.doAction, rules.terminateState, r.applied) == Some(r.state)
    ensures r.Done? && swapCount > 0 ==> |r.applied| == swapCount
    ensures r.IllegalArgument? <==> swapCount > 0 && |rules.actions| == 0
  {
    Scramble(rules, rules.terminateState, swapCount, choices)
  }

  /** A draw whose action is rejected leaves both the layout and the number of
      moves still owed unchanged. */
  lemma RejectedChoiceIsFree(rules: Rules, state: seq<Byte>, stepCount: int, c: nat, rest: seq<nat>)
    requires c < |rules.actions| && ValidChoices(rules, rest)
    requires stepCount > 0 && rules.doAction(state, rules.actions[c]).None?
    ensures ValidChoices(rules, [c] + rest)
    ensures Scramble(rules, state, stepCount, [c] + rest) == Scramble(rules, state, stepCount, rest)
  {
    assert forall k :: 0 <= k < |rest| ==> rest[k] == ([c] + rest)[k + 1];
    assert ([c] + rest)[1..] == rest;
  }

  /** A draw whose action is accepted moves to the new layout and uses up
      exactly one move. */
  lemma AcceptedChoiceCounts(rules: Rules, state: seq<Byte>, stepCount: int, c: nat, rest: seq<nat>, next: seq<Byte>)
    requires c < |rules.actions| && ValidChoices(rules, rest)
    requires stepCount > 0 && rules.doAction(state, rules.actions[c]) == Some(next)
    ensures ValidChoices(rules, [c] + rest)
    ensures Scramble(rules, state, stepCount, [c] + rest)
         == Prepend(rules.actions[c], Scramble(rules, next, stepCount - 1, rest))
  {
    assert forall k :: 0 <= k < |rest| ==> rest[k] == ([c] + rest)[k + 1];
    assert ([c] + rest)[1..] == rest;
  }

  /** The scramble follows the unbounded walk and stops after `stepCount`
      accepted actions: it finishes exactly when the draws contain that many
      accepted actions, and the actions it applied are the walk's first ones. */
  lemma {:induction false} ScrambleFollowsWalk(rules: Rules, state: seq<Byte>, stepCount: int, choices: seq<nat>)
    requires ValidChoices(rules, choices) && |rules.actions| > 0 && stepCount > 0
    ensures var r := Scramble(rules, state, stepCount, choices);
            var w := Walk(rules, state, choices);
            && (r.Done? <==> |w| >= stepCount)
            && (r.Done? ==> r.applied == w[..stepCount])
            && (r.OutOfChoices? ==> r.applied == w && r.remaining == stepCount - |w|)
    decreases |choices|
  {
    if |choices| > 0 {
      var rest := choices[1..];
      var action := rules.actions[choices[0]];
      match rules.doAction(state, action)
      case None =>
        ScrambleFollowsWalk(rules, state, stepCount, rest);
      case Some(next) =>
        if stepCount > 1 {
          ScrambleFollowsWalk(rules, next, stepCount - 1, rest);
        }
    }
  }
}
