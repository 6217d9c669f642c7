/**
 * Hysteresis (failover/hysteresis.py): a debounce state machine over an inner
 * health check. The held state flips only after enough samples disagree with
 * it, counted by number or by elapsed seconds. The inner task's outcome and
 * the wall-clock time of each call are inputs.
 */
module HysteresisCheck {
  import opened Outcomes
  import opened Units
  import opened Validation

  /** The mutable part of a Hysteresis object: `current_state`, `disagree_count`, `disagree_start`. */
  datatype Debounce = Debounce(current: HealthState, disagreeCount: nat, disagreeStart: Option<real>)

  /** A disagreement window is open exactly when some disagreement has been counted. */
  predicate Consistent(d: Debounce)
  {
    d.disagreeCount == 0 <==> d.disagreeStart.None?
  }

  /** The threshold that governs a move to `sample`: `ok_after` towards ok, `fail_after` towards fail. */
  function ThresholdFor(sample: HealthState, okAfter: Threshold, failAfter: Threshold): Threshold
  {
    if sample then okAfter else failAfter
  }

  /** `disagree >= after`, compared in the threshold's own unit. */
  predicate Reached(after: Threshold, count: nat, elapsed: real)
  {
    match after
    case CountThreshold(n) => count as real >= n
    case SecondsThreshold(t) => elapsed >= t
  }

  /** The start of the disagreement window once a disagreement at `now` has been recorded. */
  function WindowStart(d: Debounce, now: real): real
  {
    if d.disagreeStart.Some? then d.disagreeStart.value else now
  }

  /** One call of `Hysteresis.__call__` on the state `d`, given the task's outcome and the time. */
  function Step(d: Debounce, okAfter: Threshold, failAfter: Threshold, sample: Outcome<bool>, now: real): (r: Debounce)
    // An exception from the task changes nothing.
    ensures sample.Raised? ==> r == d
    // A sample that agrees with the held state changes nothing, not even the counters.
    ensures sample == Returned(d.current) ==> r == d
    // The state either stays, or becomes the sample with the counters reset.
    ensures r.current == d.current || (sample == Returned(r.current) && r.disagreeCount == 0 && r.disagreeStart.None?)
    // A disagreement that does not flip counts one more and opens the window if it was closed.
    ensures sample == Returned(!d.current) && r.current == d.current ==>
      r.disagreeCount == d.disagreeCount + 1 && r.disagreeStart == Some(WindowStart(d, now))
    // A disagreement flips exactly when the threshold for its direction is reached.
    ensures sample == Returned(!d.current) ==>
      (r.current != d.current <==>
       Reached(ThresholdFor(!d.current, okAfter, failAfter), d.disagreeCount + 1, now - WindowStart(d, now)))
    ensures Consistent(d) ==> Consistent(r)
  {
    match sample
    case Raised(_) => d
    case Returned(next) =>
      if next == d.current then d
      else
        var count := d.disagreeCount + 1;
        var start := WindowStart(d, now);
        if Reached(ThresholdFor(next, okAfter, failAfter), count, now - start) then Debounce(next, 0, None)
        else Debounce(d.current, count, Some(start))
  }

  /**
   * With a time threshold, the call that opens the disagreement window never
   * flips the state, because the threshold is positive.
   */
  lemma OpeningCallNeverFlips(d: Debounce, okAfter: Threshold, failAfter: Threshold, now: real)
    requires d.disagreeStart.None?
    requires ThresholdFor(!d.current, okAfter, failAfter).SecondsThreshold?
    requires ThresholdFor(!d.current, okAfter, failAfter).Positive()
    ensures Step(d, okAfter, failAfter, Returned(!d.current), now).current == d.current
  {
  }

  /** One call: what the task produced and when. */
  datatype Sample = Sample(outcome: Outcome<bool>, now: real)

  /** The state after a sequence of calls. */
  function Run(d: Debounce, okAfter: Threshold, failAfter: Threshold, samples: seq<Sample>): Debounce
    decreases |samples|
  {
    if samples == [] then d
    else Run(Step(d, okAfter, failAfter, samples[0].outcome, samples[0].now), okAfter, failAfter, samples[1..])
  }

  /** What a sequence of calls returns, call by call. */
  function Outputs(d: Debounce, okAfter: Threshold, failAfter: Threshold, samples: seq<Sample>): seq<HealthState>
    decreases |samples|
  {
    if samples == [] then []
    else
      var next := Step(d, okAfter, failAfter, samples[0].outcome, samples[0].now);
      [next.current] + Outputs(next, okAfter, failAfter, samples[1..])
  }

  /** The number of samples that disagree with the state `c`. */
  function Disagreements(c: HealthState, samples: seq<Sample>): nat
  {
    if samples == [] then 0
    else (if samples[0].outcome == Returned(!c) then 1 else 0) + Disagreements(c, samples[1..])
  }

  /** Runs compose: running two sequences in a row is running their concatenation. */
  lemma {:induction false} RunAppend(d: Debounce, okAfter: Threshold, failAfter: Threshold, first: seq<Sample>, second: seq<Sample>)
    ensures Run(d, okAfter, failAfter, first + second) == Run(Run(d, okAfter, failAfter, first), okAfter, failAfter, second)
    decreases |first|
  {
    if first != [] {
      assert (first + second)[1..] == first[1..] + second;
      RunAppend(Step(d, okAfter, failAfter, first[0].outcome, first[0].now), okAfter, failAfter, first[1..], second);
    } else {
      assert first + second == second;
    }
  }

  /** Calls compose: the outputs of two runs in a row are those of the first, then those of the second from where it left off. */
  lemma {:induction false} OutputsAppend(d: Debounce, okAfter: Threshold, failAfter: Threshold, first: seq<Sample>, second: seq<Sample>)
    ensures Outputs(d, okAfter, failAfter, first + second)
         == Outputs(d, okAfter, failAfter, first) + Outputs(Run(d, okAfter, failAfter, first), okAfter, failAfter, second)
    decreases |first|
  {
    if first != [] {
      assert (first + second)[1..] == first[1..] + second;
      var next := Step(d, okAfter, failAfter, first[0].outcome, first[0].now);
      OutputsAppend(next, okAfter, failAfter, first[1..], second);
      assert [next.current] + (Outputs(next, okAfter, failAfter, first[1..]) + Outputs(Run(next, okAfter, failAfter, first[1..]), okAfter, failAfter, second))
          == ([next.current] + Outputs(next, okAfter, failAfter, first[1..])) + Outputs(Run(next, okAfter, failAfter, first[1..]), okAfter, failAfter, second);
    } else {
      assert first + second == second;
    }
  }

  /**
   * Under a count threshold, disagreements add up across agreeing samples and
   * exceptions (neither resets the counter); while their total stays below
   * the threshold the state does not move.
   */
  lemma {:induction false} RunBelowCountThreshold(d: Debounce, okAfter: Threshold, failAfter: Threshold, samples: seq<Sample>)
    requires ThresholdFor(!d.current, okAfter, failAfter).CountThreshold?
    requires (d.disagreeCount + Disagreements(d.current, samples)) as real < ThresholdFor(!d.current, okAfter, failAfter).count
    ensures Run(d, okAfter, failAfter, samples).current == d.current
    ensures Run(d, okAfter, failAfter, samples).disagreeCount == d.disagreeCount + Disagreements(d.current, samples)
    decreases |samples|
  {
    if samples != [] {
      var next := Step(d, okAfter, failAfter, samples[0].outcome, samples[0].now);
      assert next.current == d.current;
      RunBelowCountThreshold(next, okAfter, failAfter, samples[1..]);
    }
  }

  /**
   * Under a count threshold n, the first disagreement that brings the count
   * to n or beyond flips the state and resets the counters: the third failure
   * with `fail_after=3`, and also the third with a fractional `count(2.5)`.
   */
  lemma FlipsOnNthDisagreement(d: Debounce, okAfter: Threshold, failAfter: Threshold, samples: seq<Sample>, now: real)
    requires ThresholdFor(!d.current, okAfter, failAfter).CountThreshold?
    requires (d.disagreeCount + Disagreements(d.current, samples)) as real
           < ThresholdFor(!d.current, okAfter, failAfter).count
          <= (d.disagreeCount + Disagreements(d.current, samples) + 1) as real
    ensures Run(d, okAfter, failAfter, samples + [Sample(Returned(!d.current), now)]) == Debounce(!d.current, 0, None)
  {
    RunBelowCountThreshold(d, okAfter, failAfter, samples);
    RunAppend(d, okAfter, failAfter, samples, [Sample(Returned(!d.current), now)]);
  }

  /** Exceptions from the task, however many, never change the state or the counters. */
  lemma {:induction false} RaisedSamplesChangeNothing(d: Debounce, okAfter: Threshold, failAfter: Threshold, samples: seq<Sample>)
    requires forall i :: 0 <= i < |samples| ==> samples[i].outcome.Raised?
    ensures Run(d, okAfter, failAfter, samples) == d
    ensures forall x :: x in Outputs(d, okAfter, failAfter, samples) ==> x == d.current
  {
    if samples != [] {
      RaisedSamplesChangeNothing(d, okAfter, failAfter, samples[1..]);
    }
  }

  /**
   * Samples that agree with the current state, however many, change nothing:
   * in particular they do not reset a disagreement count in progress.
   */
  lemma {:induction false} AgreeingSamplesChangeNothing(d: Debounce, okAfter: Threshold, failAfter: Threshold, samples: seq<Sample>)
    requires forall i :: 0 <= i < |samples| ==> samples[i].outcome == Returned(d.current)
    ensures Run(d, okAfter, failAfter, samples) == d
    ensures Outputs(d, okAfter, failAfter, samples) == seq(|samples|, _ => d.current)
    decreases |samples|
  {
    if samples != [] {
      AgreeingSamplesChangeNothing(d, okAfter, failAfter, samples[1..]);
    }
  }

  /** `disagree_count == 0` exactly when `disagree_start is None`, after any sequence of calls. */
  lemma {:induction false} RunPreservesConsistency(d: Debounce, okAfter: Threshold, failAfter: Threshold, samples: seq<Sample>)
    requires Consistent(d)
    ensures Consistent(Run(d, okAfter, failAfter, samples))
    decreases |samples|
  {
    if samples != [] {
      RunPreservesConsistency(Step(d, okAfter, failAfter, samples[0].outcome, samples[0].now), okAfter, failAfter, samples[1..]);
    }
  }

  /** The hysteresis object; its fields are the source's attributes of the same names. */
  class Hysteresis {
    var currentState: HealthState
    var disagreeCount: nat
    var disagreeStart: Option<real>
    const okAfter: Threshold
    const failAfter: Threshold

    function State(): Debounce
      reads this
    {
      Debounce(currentState, disagreeCount, disagreeStart)
    }

    ghost predicate Valid()
      reads this
    {
      okAfter.Positive() && failAfter.Positive() && Consistent(State())
    }

    /** Construction from thresholds that `validate_after` has accepted. */
    constructor (initialState: HealthState, okAfter: Threshold, failAfter: Threshold)
      requires okAfter.Positive() && failAfter.Positive()
      ensures Valid()
      ensures State() == Debounce(initialState, 0, None)
      ensures this.okAfter == okAfter && this.failAfter == failAfter
    {
      currentState := initialState;
      this.okAfter := okAfter;
      this.failAfter := failAfter;
      disagreeCount := 0;
      disagreeStart := None;
    }

    /**
     * `Hysteresis(task, initial_state, ok_after, fail_after)`: both thresholds
     * go through `validate_after`, `ok_after` first; the first error raised
     * is the constructor's.
     */
    static method Create(initialState: HealthState := Healthy, okAfter: AfterArg := Count(1.0), failAfter: AfterArg := Count(1.0))
      returns (r: Outcome<Hysteresis>)
      ensures r.Returned? <==> ValidateAfter(okAfter).Returned? && ValidateAfter(failAfter).Returned?
      ensures r.Raised? ==>
        r.error == if ValidateAfter(okAfter).Raised? then ValidateAfter(okAfter).error else ValidateAfter(failAfter).error
      ensures r.Returned? ==>
        && fresh(r.value) && r.value.Valid()
        && r.value.State() == Debounce(initialState, 0, None)
        && r.value.okAfter == ValidateAfter(okAfter).value
        && r.value.failAfter == ValidateAfter(failAfter).value
    {
      var ok := ValidateAfter(okAfter);
      if ok.Raised? {
        return Raised(ok.error);
      }
      var fail := ValidateAfter(failAfter);
      if fail.Raised? {
        return Raised(fail.error);
      }
      var h := new Hysteresis(initialState, ok.value, fail.value);
      return Returned(h);
    }

    /** `__call__`: `sample` is what the task returned (through `bool`) or raised; `now` is `time()`. */
    method Call(sample: Outcome<bool>, now: real) returns (state: HealthState)
      requires Valid()
      modifies this
      ensures Valid()
      ensures State() == Step(old(State()), okAfter, failAfter, sample, now)
      ensures state == currentState
    {
      if sample.Raised? {
        return currentState;
      }
      var next := sample.value;
      if next != currentState {
        disagreeCount := disagreeCount + 1;
        if disagreeStart.None? {
          disagreeStart := Some(now);
        }
        var disagreeTime := now - disagreeStart.value;
        var after := if next then okAfter else failAfter;
        var enough := match after
          case SecondsThreshold(t) => disagreeTime >= t
          case CountThreshold(n) => disagreeCount as real >= n;
        if enough {
          currentState := next;
          disagreeCount := 0;
          disagreeStart := None;
        }
      }
      return currentState;
    }
  }

  /** With `fail_after=3`, the third of four failures flips a healthy checker. */
  lemma CountedFailingPhase()
    ensures var samples := [Sample(Returned(false), 0.0), Sample(Returned(false), 0.0),
                            Sample(Returned(false), 0.0), Sample(Returned(false), 0.0)];
      && Run(Debounce(Healthy, 0, None), CountThreshold(5.0), CountThreshold(3.0), samples) == Debounce(Unhealthy, 0, None)
      && Outputs(Debounce(Healthy, 0, None), CountThreshold(5.0), CountThreshold(3.0), samples) == [true, true, false, false]
  {
  }

  /** With `ok_after=5`, the fifth of six successes flips a failed checker back. */
  lemma CountedRecoveringPhase()
    ensures var samples := [Sample(Returned(true), 0.0), Sample(Returned(true), 0.0), Sample(Returned(true), 0.0),
                            Sample(Returned(true), 0.0), Sample(Returned(true), 0.0), Sample(Returned(true), 0.0)];
      Outputs(Debounce(Unhealthy, 0, None), CountThreshold(5.0), CountThreshold(3.0), samples)
      == [false, false, false, false, true, true]
  {
  }

  /**
   * tests/hysteresis_test.py:45-69 and 128-152: `fail_after=3`, `ok_after=5`,
   * starting ok; two successes, four failures, six successes.
   * The three phases are parameters fixed by `requires` rather than literals
   * in the `ensures`, so that each phase is unfolded once, by its own lemma,
   * and the whole proof stays small.
   */
  lemma CountedHysteresisExample(start: seq<Sample>, failing: seq<Sample>, recovering: seq<Sample>)
    requires start == [Sample(Returned(true), 0.0), Sample(Returned(true), 0.0)]
    requires failing == [Sample(Returned(false), 0.0), Sample(Returned(false), 0.0),
                         Sample(Returned(false), 0.0), Sample(Returned(false), 0.0)]
    requires recovering == [Sample(Returned(true), 0.0), Sample(Returned(true), 0.0), Sample(Returned(true), 0.0),
                            Sample(Returned(true), 0.0), Sample(Returned(true), 0.0), Sample(Returned(true), 0.0)]
    ensures Outputs(Debounce(Healthy, 0, None), CountThreshold(5.0), CountThreshold(3.0), start + failing + recovering)
         == [true, true, true, true, false, false, false, false, false, false, true, true]
  {
    var d, ok, fail := Debounce(Healthy, 0, None), CountThreshold(5.0), CountThreshold(3.0);
    AgreeingSamplesChangeNothing(d, ok, fail, start);
    assert Run(d, ok, fail, failing) == Debounce(Unhealthy, 0, None)
        && Outputs(d, ok, fail, failing) == [true, true, false, false] by {
      CountedFailingPhase();
    }
    assert Outputs(Debounce(Unhealthy, 0, None), ok, fail, recovering) == [false, false, false, false, true, true] by {
      CountedRecoveringPhase();
    }
    OutputsAppend(d, ok, fail, start, failing);
    RunAppend(d, ok, fail, start, failing);
    OutputsAppend(d, ok, fail, start + failing, recovering);
  }

  /** With `fail_after=0.5s`, failures flip a healthy checker once they span half a second. */
  lemma TimedFailingPhase()
    ensures var samples := [Sample(Returned(false), 1.0), Sample(Returned(false), 1.0),
                            Sample(Returned(false), 1.5), Sample(Returned(false), 1.5)];
      && Run(Debounce(Healthy, 0, None), SecondsThreshold(0.3), SecondsThreshold(0.5), samples) == Debounce(Unhealthy, 0, None)
      && Outputs(Debounce(Healthy, 0, None), SecondsThreshold(0.3), SecondsThreshold(0.5), samples) == [true, true, false, false]
  {
  }

  /** With `ok_after=0.3s`, successes flip a failed checker back once they span 0.3 seconds. */
  lemma TimedRecoveringPhase()
    ensures var samples := [Sample(Returned(true), 2.0), Sample(Returned(true), 2.0),
                            Sample(Returned(true), 2.3), Sample(Returned(true), 2.3)];
      Outputs(Debounce(Unhealthy, 0, None), SecondsThreshold(0.3), SecondsThreshold(0.5), samples) == [false, false, true, true]
  {
  }

  /**
   * tests/hysteresis_test.py:71-94: `fail_after=0.5s`, `ok_after=0.3s`,
   * starting ok; the sleeps are the jumps in `now`. The phases are
   * parameters fixed by `requires` for the same reason as above.
   */
  lemma TimedHysteresisExample(start: seq<Sample>, failing: seq<Sample>, recovering: seq<Sample>)
    requires start == [Sample(Returned(true), 0.0), Sample(Returned(true), 0.0)]
    requires failing == [Sample(Returned(false), 1.0), Sample(Returned(false), 1.0),
                         Sample(Returned(false), 1.5), Sample(Returned(false), 1.5)]
    requires recovering == [Sample(Returned(true), 2.0), Sample(Returned(true), 2.0),
                            Sample(Returned(true), 2.3), Sample(Returned(true), 2.3)]
    ensures Outputs(Debounce(Healthy, 0, None), SecondsThreshold(0.3), SecondsThreshold(0.5), start + failing + recovering)
         == [true, true, true, true, false, false, false, false, true, true]
  {
    var d, ok, fail := Debounce(Healthy, 0, None), SecondsThreshold(0.3), SecondsThreshold(0.5);
    AgreeingSamplesChangeNothing(d, ok, fail, start);
    assert Run(d, ok, fail, failing) == Debounce(Unhealthy, 0, None)
        && Outputs(d, ok, fail, failing) == [true, true, false, false] by {
      TimedFailingPhase();
    }
    assert Outputs(Debounce(Unhealthy, 0, None), ok, fail, recovering) == [false, false, true, true] by {
      TimedRecoveringPhase();
    }
    OutputsAppend(d, ok, fail, start, failing);
    RunAppend(d, ok, fail, start, failing);
    OutputsAppend(d, ok, fail, start + failing, recovering);
  }
}
