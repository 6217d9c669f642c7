/**
 * Toggle (failover/toggle.py): a two-state machine. While ok it consults
 * `to_fail`, while failed it consults `to_ok`, and it flips as soon as the
 * consulted task returns the opposite state. What each task would return or
 * raise is an input.
 */
module ToggleCheck {
  import opened Outcomes
  import opened Units

  /** The two tasks a Toggle holds. */
  datatype Task = ToFail | ToOk

  /** The task a Toggle in `state` invokes. */
  function Selected(state: HealthState): (t: Task)
    ensures t == ToFail <==> state == Healthy
  {
    if state then ToFail else ToOk
  }

  /** The state after a call in `state` whose invoked task had outcome `result`. */
  function Next(state: HealthState, result: Outcome<bool>): (r: HealthState)
    ensures r == state || r == !state
    ensures r != state <==> result == Returned(!state)
  {
    match result
    case Raised(_) => state
    case Returned(v) => if v == !state then !state else state
  }

  /** What each task would produce on one call. */
  datatype Signals = Signals(toFail: Outcome<bool>, toOk: Outcome<bool>)

  function Consult(state: HealthState, s: Signals): Outcome<bool>
  {
    if Selected(state) == ToFail then s.toFail else s.toOk
  }

  /** What a sequence of calls returns, call by call. */
  function Outputs(state: HealthState, signals: seq<Signals>): seq<HealthState>
    decreases |signals|
  {
    if signals == [] then []
    else
      var next := Next(state, Consult(state, signals[0]));
      [next] + Outputs(next, signals[1..])
  }

  /**
   * With `to_fail` always returning fail and `to_ok` always returning ok, the
   * calls alternate, starting with the flip away from the initial state.
   */
  lemma {:induction false} FlipFlop(state: HealthState, signals: seq<Signals>)
    requires forall i :: 0 <= i < |signals| ==> signals[i] == Signals(Returned(Unhealthy), Returned(Healthy))
    ensures |Outputs(state, signals)| == |signals|
    ensures forall i :: 0 <= i < |signals| ==> Outputs(state, signals)[i] == if i % 2 == 0 then !state else state
    decreases |signals|
  {
    if signals != [] {
      FlipFlop(!state, signals[1..]);
      forall i | 1 <= i < |signals|
        ensures Outputs(state, signals)[i] == if i % 2 == 0 then !state else state
      {
        assert Outputs(state, signals)[i] == Outputs(!state, signals[1..])[i - 1];
      }
    }
  }

  /**
   * As long as the consulted task never returns the opposite state (a truthy
   * `to_fail` while ok, a falsy `to_ok` while failed, or an exception), every
   * call returns the same state.
   */
  lemma {:induction false} NoFlipNoDrift(state: HealthState, signals: seq<Signals>)
    requires forall i :: 0 <= i < |signals| ==> Consult(state, signals[i]) != Returned(!state)
    ensures forall x :: x in Outputs(state, signals) ==> x == state
  {
    if signals != [] {
      NoFlipNoDrift(state, signals[1..]);
    }
  }

  /** The toggle object; `state` is the source's attribute of that name. */
  class Toggle {
    var state: HealthState

    /** `Toggle(to_fail, to_ok, initial_state=ok)` */
    constructor (initialState: HealthState := Healthy)
      ensures state == initialState
    {
      state := initialState;
    }

    /**
     * `__call__`: `run` gives the outcome of invoking each task; only the
     * selected one is invoked, and `invoked` records which.
     */
    method Call(run: Task -> Outcome<bool>) returns (ghost invoked: Task, r: HealthState)
      modifies this
      ensures invoked == Selected(old(state))
      ensures state == Next(old(state), run(invoked))
      ensures r == state
    {
      var task := if state then ToFail else ToOk;
      invoked := task;
      var toggleResult := !state;
      var taskResult := run(task);
      if taskResult.Returned? {
        if taskResult.value == toggleResult {
          state := !state;
        }
      }
      r := state;
    }
  }
}
