/**
 * The application of src/app.rs: a stack of view states whose top is the
 * current view, and the run loop that turns each handled event's
 * `CommandResult` into a change of the stack and a redisplay.
 */
module Application {
  import opened State

  /** The stack after `Vec::pop`: the top removed, or still empty. */
  function Popped<S>(stack: seq<S>): (rest: seq<S>)
    ensures stack == [] ==> rest == []
    ensures stack != [] ==> rest + [stack[|stack| - 1]] == stack
  {
    if stack == [] then [] else stack[..|stack| - 1]
  }

  /**
   * One dispatch of the run loop: the stack afterwards and whether the
   * loop quits. Only `PopState` changes anything, and it quits exactly
   * when it empties the stack.
   */
  function Step<S>(stack: seq<S>, result: CommandResult): (next: (seq<S>, bool))
    ensures result != PopState ==> next.0 == stack && !next.1
    ensures result == PopState ==> next.0 == Popped(stack) && (next.1 <==> |stack| <= 1)
  {
    match result
    case Keep => (stack, false)
    case PopState =>
      var rest := Popped(stack);
      (rest, rest == [])
    case Other => (stack, false)
  }

  /**
   * Where the run loop stands: the stack, the states displayed after each
   * event so far (the initial display is not included), how many events
   * were handled, and whether the loop has quit.
   */
  datatype Outcome<S> = Outcome(stack: seq<S>, displayed: seq<S>, handled: nat, quit: bool)

  /**
   * One more event result reaching the loop. Once the loop has quit the
   * event source is stopped, so nothing more is handled; otherwise the
   * result is dispatched and, unless that quits, the new top is displayed.
   */
  function Continue<S>(o: Outcome<S>, result: CommandResult): (next: Outcome<S>)
    requires !o.quit ==> o.stack != []
    ensures !next.quit ==> next.stack != []
  {
    if o.quit then o
    else
      var step := Step(o.stack, result);
      var shown := if step.1 then o.displayed else o.displayed + [step.0[|step.0| - 1]];
      Outcome(step.0, shown, o.handled + 1, step.1)
  }

  /** The run loop from a non-empty stack over the results of the events it receives. */
  function Drive<S>(stack: seq<S>, results: seq<CommandResult>): (o: Outcome<S>)
    requires stack != []
    ensures !o.quit ==> o.stack != [] && o.handled == |results|
    ensures o.quit ==> o.stack == [] && 0 < o.handled <= |results|
    ensures |o.displayed| + (if o.quit then 1 else 0) == o.handled
  {
    if results == [] then Outcome(stack, [], 0, false)
    else Continue(Drive(stack, results[..|results| - 1]), results[|results| - 1])
  }

  /** The number of `PopState` results. */
  function PopCount(results: seq<CommandResult>): nat
  {
    if results == [] then 0
    else PopCount(results[..|results| - 1]) + (if results[|results| - 1] == PopState then 1 else 0)
  }

  lemma {:induction false} PopCountPrefix(results: seq<CommandResult>, n: nat)
    requires n <= |results|
    ensures PopCount(results[..n]) <= PopCount(results)
  {
    if n < |results| {
      var init := results[..|results| - 1];
      PopCountPrefix(init, n);
      assert init[..n] == results[..n];
    } else {
      assert results[..n] == results;
    }
  }

  lemma DriveNext<S>(stack: seq<S>, results: seq<CommandResult>, i: nat)
    requires stack != [] && i < |results|
    ensures Drive(stack, results[..i + 1]) == Continue(Drive(stack, results[..i]), results[i])
  {
    assert results[..i + 1][..i] == results[..i];
  }

  /** After the loop has quit, later results change nothing. */
  lemma {:induction false} DriveQuitFinal<S>(stack: seq<S>, results: seq<CommandResult>, n: nat)
    requires stack != [] && n <= |results|
    requires Drive(stack, results[..n]).quit
    ensures Drive(stack, results) == Drive(stack, results[..n])
  {
    if n < |results| {
      var init := results[..|results| - 1];
      assert init[..n] == results[..n];
      DriveQuitFinal(stack, init, n);
    } else {
      assert results[..n] == results;
    }
  }

  /** One more result on a run whose stack has lost its top `pops` states and has not quit. */
  lemma ContinueTrimmed<S>(stack: seq<S>, o: Outcome<S>, pops: nat, result: CommandResult)
    requires pops < |stack| && !o.quit && o.stack == stack[..|stack| - pops]
    ensures var first := if result == PopState then 1 else 0;
      var next := Continue(o, result);
      && next.stack == stack[..|stack| - pops - first]
      && (next.quit <==> pops + first == |stack|)
  {
  }

  /**
   * The stack of `o` is `stack` without its top `pops` states, where `pops`
   * counts the `PopState` results handled so far; `o` has quit exactly when
   * they have emptied it, and then on a `PopState`.
   */
  ghost predicate TrimmedBy<S>(stack: seq<S>, results: seq<CommandResult>, o: Outcome<S>)
  {
    && o.handled <= |results|
    && var pops := PopCount(results[..o.handled]);
    && pops <= |stack|
    && o.stack == stack[..|stack| - pops]
    && (o.quit <==> pops == |stack|)
    && (o.quit ==> 0 < o.handled && results[o.handled - 1] == PopState)
  }

  /** A run that has not quit, given one more result. */
  lemma TrimmedByStep<S>(stack: seq<S>, prefix: seq<CommandResult>, result: CommandResult, o: Outcome<S>)
    requires !o.quit && o.handled == |prefix| && TrimmedBy(stack, prefix, o)
    ensures TrimmedBy(stack, prefix + [result], Continue(o, result))
  {
    var results := prefix + [result];
    var pops := PopCount(prefix);
    var first := if result == PopState then 1 else 0;
    assert prefix[..o.handled] == prefix;
    assert results[..|prefix|] == prefix;
    ContinueTrimmed(stack, o, pops, result);
    var next := Continue(o, result);
    assert next.handled == |results|;
    assert results[..next.handled] == results;
    assert PopCount(results) == pops + first;
    assert next.quit ==> first == 1;
  }

  /** A run that has quit keeps its account whatever results come after. */
  lemma TrimmedByQuitExtend<S>(stack: seq<S>, prefix: seq<CommandResult>, results: seq<CommandResult>, o: Outcome<S>)
    requires |prefix| <= |results| && prefix == results[..|prefix|]
    requires o.quit && TrimmedBy(stack, prefix, o)
    ensures TrimmedBy(stack, results, o)
  {
    var h := o.handled;
    assert prefix[..h] == results[..h];
    assert prefix[h - 1] == results[h - 1];
  }

  /** The stack over a run only ever loses its top, once per handled `PopState`. */
  lemma {:induction false} DriveStack<S>(stack: seq<S>, results: seq<CommandResult>)
    requires stack != []
    ensures TrimmedBy(stack, results, Drive(stack, results))
  {
    if results == [] {
      assert stack[..|stack|] == stack;
    } else {
      var init, last := results[..|results| - 1], results[|results| - 1];
      DriveStack(stack, init);
      var before := Drive(stack, init);
      assert Drive(stack, results) == Continue(before, last);
      if before.quit {
        TrimmedByQuitExtend(stack, init, results, before);
      } else {
        TrimmedByStep(stack, init, last, before);
        assert init + [last] == results;
      }
    }
  }

  /**
   * `shown` is the top of the stack left by the first k + 1 results: the
   * state under the one popped by each `PopState` among them.
   */
  ghost predicate TopAfter<S>(stack: seq<S>, results: seq<CommandResult>, k: nat, shown: S)
  {
    && k < |results|
    && PopCount(results[..k + 1]) < |stack|
    && shown == stack[|stack| - 1 - PopCount(results[..k + 1])]
  }

  /** Every display after an event shows the top of the stack at that point. */
  ghost predicate ShowsTops<S>(stack: seq<S>, results: seq<CommandResult>, displayed: seq<S>)
  {
    forall k :: 0 <= k < |displayed| ==> TopAfter(stack, results, k, displayed[k])
  }

  lemma TopAfterExtend<S>(stack: seq<S>, results: seq<CommandResult>, m: nat, k: nat, shown: S)
    requires m <= |results|
    requires TopAfter(stack, results[..m], k, shown)
    ensures TopAfter(stack, results, k, shown)
  {
    assert results[..m][..k + 1] == results[..k + 1];
  }

  lemma TopAfterLast<S>(stack: seq<S>, results: seq<CommandResult>)
    requires stack != [] && results != []
    requires !Drive(stack, results).quit
    ensures var o := Drive(stack, results);
      |o.displayed| == |results| && TopAfter(stack, results, |results| - 1, o.displayed[|results| - 1])
  {
    var n := |results| - 1;
    var o := Drive(stack, results);
    var before := Drive(stack, results[..n]);
    assert o == Continue(before, results[n]);
    assert o.displayed[n] == o.stack[|o.stack| - 1];
    DriveStack(stack, results);
    var pops := PopCount(results);
    assert results[..n + 1] == results && results[..o.handled] == results;
    assert o.stack == stack[..|stack| - pops] && pops < |stack|;
  }

  /** Every display after an event shows the top of the stack at that point. */
  lemma {:induction false} DriveDisplays<S>(stack: seq<S>, results: seq<CommandResult>)
    requires stack != []
    ensures ShowsTops(stack, results, Drive(stack, results).displayed)
  {
    var o := Drive(stack, results);
    if results != [] {
      var n := |results| - 1;
      var init := results[..n];
      DriveDisplays(stack, init);
      var before := Drive(stack, init);
      assert o == Continue(before, results[n]);
      assert o.displayed[..|before.displayed|] == before.displayed;
      forall k | 0 <= k < |o.displayed|
        ensures TopAfter(stack, results, k, o.displayed[k])
      {
        if k < |before.displayed| {
          TopAfterExtend(stack, results, n, k, before.displayed[k]);
        } else {
          TopAfterLast(stack, results);
        }
      }
    }
  }

  /** The loop quits if and only if the results hold at least as many pops as the stack has states. */
  lemma DriveQuits<S>(stack: seq<S>, results: seq<CommandResult>)
    requires stack != []
    ensures Drive(stack, results).quit <==> PopCount(results) >= |stack|
  {
    var o := Drive(stack, results);
    DriveStack(stack, results);
    PopCountPrefix(results, o.handled);
    assert results[..|results|] == results;
  }

  // ---------------------------------------------------------------------
  // The application object
  // ---------------------------------------------------------------------

  class App<S> {
    /** The stack of view states; the last one is current. */
    var states: seq<S>

    /** `App::new`: no state yet. */
    constructor ()
      ensures states == []
    {
      states := [];
    }

    /** The pushed state becomes the top; the states below are unchanged. */
    method Push(state: S)
      modifies this
      ensures states == old(states) + [state]
    {
      states := states + [state];
    }

    /** Removes the top state and reports whether the stack is now empty. */
    method Pop() returns (empty: bool)
      modifies this
      ensures states == Popped(old(states))
      ensures empty <==> states == []
    {
      if states != [] {
        states := states[..|states| - 1];
      }
      empty := states == [];
    }

    /** The current state: the one the next `Pop` removes. */
    function State(): (current: S)
      reads this
      requires states != []
      ensures Popped(states) + [current] == states
    {
      states[|states| - 1]
    }

    /**
     * `state_mut`: a mutable reference to the current state, modelled as
     * the position of its slot in the stack.
     */
    method StateMut() returns (slot: nat)
      requires states != []
      ensures slot == |states| - 1
      ensures Popped(states) + [states[slot]] == states
    {
      slot := |states| - 1;
    }

    /**
     * The dispatch of one handled event's result: `PopState` pops the
     * current state and quits when that leaves the stack empty; any other
     * result changes nothing.
     */
    method Dispatch(result: CommandResult) returns (quit: bool)
      modifies this
      ensures (states, quit) == Step(old(states), result)
    {
      quit := false;
      match result {
        case Keep =>
        case PopState =>
          quit := Pop();
        case Other =>
      }
    }

    /**
     * `run`, once the repository is opened: pushes the initial log state,
     * displays it, then handles the results of the received events one at
     * a time. The event source delivers `results` and then closes; after a
     * quitting step it is told to stop and delivers nothing more.
     * `displayed` records, in order, the state each `display` call shows.
     */
    method Run(initial: S, results: seq<CommandResult>)
      returns (displayed: seq<S>, handled: nat, quit: bool)
      modifies this
      ensures var o := Drive(old(states) + [initial], results);
        && states == o.stack
        && displayed == [initial] + o.displayed
        && handled == o.handled
        && quit == o.quit
    {
      ghost var start := states + [initial];
      Push(initial);
      var top := StateMut();
      var first := states[top];
      var shown: seq<S> := [];
      var stopped := false;
      var i := 0;
      while !stopped && i < |results|
        invariant i <= |results|
        invariant Drive(start, results[..i]) == Outcome(states, shown, i, stopped)
      {
        DriveNext(start, results, i);
        var stepQuit := Dispatch(results[i]);
        i := i + 1;
        if !stepQuit {
          top := StateMut();
          shown := shown + [states[top]];
        }
        stopped := stepQuit;
      }
      if stopped {
        DriveQuitFinal(start, results, i);
      }
      assert results[..|results|] == results;
      displayed, handled, quit := [first] + shown, i, stopped;
    }
  }

  /** `App::new()` followed by `run`: the first display shows the initial state. */
  method Session<S>(initial: S, results: seq<CommandResult>)
    returns (displayed: seq<S>, handled: nat, quit: bool)
    ensures var o := Drive([initial], results);
      && displayed == [initial] + o.displayed
      && handled == o.handled
      && quit == o.quit
    ensures quit <==> PopCount(results) >= 1
    ensures !quit ==> handled == |results| && |displayed| == |results| + 1
  {
    var app := new App<S>();
    assert app.states + [initial] == [initial];
    displayed, handled, quit := app.Run(initial, results);
    DriveQuits([initial], results);
    DriveStack([initial], results);
  }

  /** Popping a two-state stack leaves one state; popping again empties it. */
  method PopLifecycle<S>(bottom: S, top: S) returns (first: bool, second: bool, left: seq<S>)
    ensures !first && second
    ensures left == [bottom]
  {
    var app := new App<S>();
    app.Push(bottom);
    app.Push(top);
    first := app.Pop();
    left := app.states;
    second := app.Pop();
  }
}
