/**
 * Oneshot (failover/oneshot.py): a self-resetting latch. It reports its
 * default state until fired; after a successful fire exactly the next call
 * reports the opposite state. The auth check's outcome and whether an HTTP
 * request is being handled are inputs; the replies it sends are outputs.
 */
module OneshotCheck {
  import opened Outcomes
  import opened Units
  import Handler

  /** `default_state` and `next_state`. */
  datatype Latch = Latch(defaultState: HealthState, nextState: HealthState)

  /** `__call__`: what it returns, and the latch afterwards. */
  function CallStep(l: Latch): (r: (HealthState, Latch))
    // A call reports whatever the latch was armed with and leaves it unarmed, default unchanged.
    ensures r.0 == l.nextState
    ensures r.1.defaultState == l.defaultState && r.1.nextState == r.1.defaultState
  {
    (l.nextState, Latch(l.defaultState, l.defaultState))
  }

  /** `fire()`: what it returns or raises, the latch afterwards, and the reply it sends the current handler. */
  datatype FireResult = FireResult(result: Outcome<bool>, latch: Latch, reply: Option<Handler.Reply>)

  /**
   * `fire()` where `auth` is None when no auth check is configured and
   * otherwise the outcome of calling it, and `handlerPresent` says whether a
   * request handler is current.
   */
  function FireStep(l: Latch, auth: Option<Outcome<bool>>, handlerPresent: bool): (f: FireResult)
    ensures f.latch.defaultState == l.defaultState
    // Arming succeeds exactly when there is no auth check or it returns truthy.
    ensures f.result == Returned(true) <==> auth.None? || auth == Some(Returned(true))
    ensures f.result == Returned(true) ==> f.latch.nextState == !l.defaultState
    // A denial or an exception from the auth check leaves the latch as it was.
    ensures f.result != Returned(true) ==> f.latch == l
    ensures f.result.Raised? <==> auth.Some? && auth.value.Raised?
    ensures f.result.Raised? ==> f.result.error == auth.value.error
    // The current handler, if any, is told the outcome; an exception sends nothing.
    ensures f.reply.Some? <==> handlerPresent && f.result.Returned?
    ensures f.reply.Some? ==>
      f.reply.value == if f.result.value then Handler.Reply(Handler.StatusOk, "Armed")
                       else Handler.Reply(Handler.StatusUnauthorized, "Invalid credentials")
  {
    match auth
    case Some(Raised(e)) => FireResult(Raised(e), l, None)
    case Some(Returned(false)) =>
      FireResult(Returned(false), l,
                 if handlerPresent then Some(Handler.Reply(Handler.StatusUnauthorized, "Invalid credentials")) else None)
    case _ =>
      FireResult(Returned(true), Latch(l.defaultState, !l.defaultState),
                 if handlerPresent then Some(Handler.Reply(Handler.StatusOk, "Armed")) else None)
  }

  predicate Succeeds(auth: Option<Outcome<bool>>)
  {
    auth.None? || auth == Some(Returned(true))
  }

  /** Firing is idempotent: a second successful fire before a call changes nothing more. */
  lemma FireIdempotent(l: Latch, a1: Option<Outcome<bool>>, a2: Option<Outcome<bool>>, h1: bool, h2: bool)
    requires Succeeds(a1) && Succeeds(a2)
    ensures FireStep(FireStep(l, a1, h1).latch, a2, h2).latch == FireStep(l, a1, h1).latch
  {
  }

  /** An operation on the latch: a call, or a fire with the auth check's outcome. */
  datatype Op = Read | Fire(auth: Option<Outcome<bool>>)

  /** What the calls in `ops` return, in order. */
  function Replay(l: Latch, ops: seq<Op>): seq<HealthState>
    decreases |ops|
  {
    if ops == [] then []
    else match ops[0]
      case Read => var (r, next) := CallStep(l); [r] + Replay(next, ops[1..])
      case Fire(auth) => Replay(FireStep(l, auth, false).latch, ops[1..])
  }

  /** Without a successful fire, an unarmed latch returns its default state on every call. */
  lemma {:induction false} UnfiredReadsDefault(l: Latch, ops: seq<Op>)
    requires l.nextState == l.defaultState
    requires forall i :: 0 <= i < |ops| && ops[i].Fire? ==> !Succeeds(ops[i].auth)
    ensures forall x :: x in Replay(l, ops) ==> x == l.defaultState
    decreases |ops|
  {
    if ops != [] {
      UnfiredReadsDefault(if ops[0].Read? then CallStep(l).1 else FireStep(l, ops[0].auth, false).latch, ops[1..]);
    }
  }

  /**
   * After a successful fire, from any latch, exactly the next call returns the
   * opposite of the default state and the call after it the default state.
   */
  lemma ExactlyOneFlippedCall(l: Latch, auth: Option<Outcome<bool>>, ops: seq<Op>)
    requires Succeeds(auth)
    ensures Replay(l, [Fire(auth), Read, Read] + ops)
         == [!l.defaultState, l.defaultState] + Replay(Latch(l.defaultState, l.defaultState), ops)
  {
    var d := l.defaultState;
    var s := [Fire(auth), Read, Read] + ops;
    assert s[1..] == [Read, Read] + ops;
    assert s[1..][1..] == [Read] + ops;
    assert s[1..][1..][1..] == ops;
    var armed := FireStep(l, auth, false).latch;
    assert armed == Latch(d, !d);
    calc {
      Replay(l, s);
      Replay(armed, [Read, Read] + ops);
      [!d] + Replay(Latch(d, d), [Read] + ops);
      [!d] + ([d] + Replay(Latch(d, d), ops));
    }
  }

  /**
   * The oneshot object; its fields are the source's attributes of the same
   * names. `hasAuth` says whether `auth` was given; what the auth check
   * returns or raises on each fire is an input to `Fire`.
   */
  class Oneshot {
    const defaultState: HealthState
    const hasAuth: bool
    var nextState: HealthState

    function State(): Latch
      reads this
    {
      Latch(defaultState, nextState)
    }

    /** `Oneshot(default_state=fail, auth=None)`: starts unarmed. */
    constructor (defaultState: HealthState := Unhealthy, hasAuth: bool := false)
      ensures this.defaultState == defaultState && this.hasAuth == hasAuth && nextState == defaultState
    {
      this.defaultState := defaultState;
      this.hasAuth := hasAuth;
      nextState := defaultState;
    }

    /** `__call__`: returns `next_state`, then resets it to `default_state`. */
    method Call() returns (r: HealthState)
      modifies this
      ensures (r, State()) == CallStep(old(State()))
    {
      r := nextState;
      nextState := defaultState;
    }

    /**
     * `fire()`; `auth` is the outcome of the object's auth check, present
     * exactly when one was configured, and `reply` is the `respond` call made
     * on the current handler, if any.
     */
    method Fire(auth: Option<Outcome<bool>>, handlerPresent: bool) returns (r: Outcome<bool>, reply: Option<Handler.Reply>)
      requires auth.Some? <==> hasAuth
      modifies this
      // An object built with an auth check is armed by a fire exactly when that check returns truthy.
      ensures hasAuth ==> (r == Returned(true) <==> auth.value == Returned(true))
      ensures var f := FireStep(old(State()), auth, handlerPresent);
        r == f.result && reply == f.reply && State() == f.latch
    {
      if auth.Some? {
        if auth.value.Raised? {
          return Raised(auth.value.error), None;
        }
        if !auth.value.value {
          reply := if handlerPresent then Some(Handler.Reply(Handler.StatusUnauthorized, "Invalid credentials")) else None;
          return Returned(false), reply;
        }
      }
      nextState := !defaultState;
      reply := if handlerPresent then Some(Handler.Reply(Handler.StatusOk, "Armed")) else None;
      return Returned(true), reply;
    }
  }

  /** tests/oneshot_test.py:39-57: default ok, an auth check that allows and then denies. */
  lemma DummyAuthExample()
    ensures Replay(Latch(Healthy, Healthy),
                   [Read, Read, Fire(Some(Returned(true))), Read, Read, Fire(Some(Returned(false))), Read])
         == [true, true, false, true, true]
  {
  }
}
