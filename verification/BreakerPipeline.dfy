/**
  The circuit breaker as one of the interceptors of the message pipeline. Its half-open
  state is left only through `on_complete`, so what happens to the probe message elsewhere
  in the pipeline decides whether the breaker ever recovers.
*/
module BreakerPipeline {
  import opened Wrappers
  import opened Wire
  import opened Pipeline
  import opened PipelineTrace
  import B = CircuitBreaker
  import R = CircuitBreakerRuns
  import O = PipelineOutcome

  /** A message, and the clock when the breaker sees it come in and complete. */
  datatype Turn = Turn(message: Incoming, receivedAt: Instant, completedAt: Instant)

  /** The interceptors before the breaker at `pos` let the message through. */
  predicate Reached(m: Incoming, pos: nat)
    requires pos < |m.interceptors|
  {
    forall i :: 0 <= i < pos ==> Passes(m.interceptors[i].disposition)
  }

  /** The message with the breaker's verdict in place; the breaker wraps nothing. */
  function WithVerdict(m: Incoming, pos: nat, v: B.Verdict): Incoming
    requires pos < |m.interceptors|
  {
    var d := if v.Admit? then Continue else Reject("circuit breaker open");
    m.(interceptors := m.interceptors[pos := Interceptor(d, NoWrapper)])
  }

  /** The trace of a message and the breaker after it. */
  function AfterMessage(c: B.Config, b: B.Breaker, t: Turn, pos: nat, deadLetters: bool): (seq<Action>, B.Breaker)
    requires pos < |t.message.interceptors|
  {
    var (verdict, received) := B.AfterReceive(c, b, t.receivedAt);
    var m := WithVerdict(t.message, pos, verdict);
    var trace := MessageTrace(m, deadLetters);
    var calls := CallsIn(trace);
    if pos !in calls.receivers then (trace, b)
    else if pos !in calls.completers then (trace, received)
    else (trace, B.AfterComplete(c, received, OutcomeOf(m).HandlerError?, t.completedAt))
  }

  /** The breaker is open and its cooldown is over. */
  predicate Due(c: B.Config, b: B.Breaker, now: Instant) {
    b.state.Open? && b.openedAt.Some? && DurationSince(now, b.openedAt.value) >= c.cooldown
  }

  lemma StopIsFirst(interceptors: seq<Interceptor>, i: nat)
    requires i < |interceptors| && !Passes(interceptors[i].disposition)
    ensures FirstStop(interceptors).Some? && FirstStop(interceptors).value <= i
  {
  }

  lemma InRange(pos: nat, n: nat)
    ensures pos in Range(n) <==> pos < n
  {
    if pos < n { assert Range(n)[pos] == pos; }
  }

  lemma ReachedIffReceives(m: Incoming, pos: nat, v: B.Verdict)
    requires pos < |m.interceptors|
    ensures pos < ReceiversExpected(WithVerdict(m, pos, v)) <==> Reached(m, pos)
    ensures v.Refuse? || !Reached(m, pos) ==> FirstStop(WithVerdict(m, pos, v).interceptors).Some?
  {
    var m' := WithVerdict(m, pos, v);
    assert forall i :: 0 <= i < pos ==> m'.interceptors[i] == m.interceptors[i];
    if !Reached(m, pos) {
      var i :| 0 <= i < pos && !Passes(m.interceptors[i].disposition);
      StopIsFirst(m'.interceptors, i);
    }
    if v.Refuse? { StopIsFirst(m'.interceptors, pos); }
  }

  /** The breaker is asked exactly when the interceptors before it pass, and what it refuses is not dispatched. */
  lemma BreakerCalls(m: Incoming, pos: nat, v: B.Verdict, deadLetters: bool)
    requires pos < |m.interceptors|
    ensures var m' := WithVerdict(m, pos, v);
            var calls := CallsIn(MessageTrace(m', deadLetters));
            && (pos in calls.receivers <==> Reached(m, pos))
            && (pos in calls.completers <==> Finishes(m'))
            && (Finishes(m') ==> Reached(m, pos) && v.Admit?)
  {
    var m' := WithVerdict(m, pos, v);
    TraceOfMessage(m', deadLetters);
    ReachedIffReceives(m, pos, v);
    InRange(pos, ReceiversExpected(m'));
    InRange(pos, |m'.interceptors|);
    hide CallsIn, MessageTrace, ExpectedSleeps, ExpectedAnswers, ReceiversExpected, Reached, CancelledDuring, Range;
  }

  /** Every message keeps the breaker's invariant. */
  lemma MessageKeepsInv(c: B.Config, b: B.Breaker, t: Turn, pos: nat, deadLetters: bool)
    requires pos < |t.message.interceptors| && R.Inv(c, b)
    ensures R.Inv(c, AfterMessage(c, b, t, pos, deadLetters).1)
  {
    var (verdict, received) := B.AfterReceive(c, b, t.receivedAt);
    R.StepKeepsInv(c, b, R.Receive(t.receivedAt));
    R.StepKeepsInv(c, received, R.Complete(true, t.completedAt));
    R.StepKeepsInv(c, received, R.Complete(false, t.completedAt));
    hide R.Inv, B.AfterComplete, B.AfterReceive, MessageTrace, CallsIn, OutcomeOf;
  }

  /**
    A message leaves the breaker half-open exactly when it was admitted as a probe and then
    did not run to its end: a later interceptor stopped it, or it was cancelled.
  */
  lemma StuckIffProbeIsLost(c: B.Config, b: B.Breaker, t: Turn, pos: nat, deadLetters: bool)
    requires pos < |t.message.interceptors| && R.Inv(c, b) && !b.state.HalfOpen?
    ensures AfterMessage(c, b, t, pos, deadLetters).1.state.HalfOpen? <==>
            && Reached(t.message, pos)
            && Due(c, b, t.receivedAt)
            && !Finishes(WithVerdict(t.message, pos, B.Admit))
  {
    var (verdict, received) := B.AfterReceive(c, b, t.receivedAt);
    BreakerCalls(t.message, pos, verdict, deadLetters);
    hide MessageTrace, CallsIn, OutcomeOf, Finishes, WithVerdict, Reached, B.Pruned;
  }

  /** With the breaker last and no cancellation token, it is never half-open between messages. */
  lemma LastBreakerIsNeverStuck(c: B.Config, b: B.Breaker, t: Turn, pos: nat, deadLetters: bool)
    requires R.Inv(c, b) && !b.state.HalfOpen?
    requires pos + 1 == |t.message.interceptors| && t.message.cancellation.NoToken?
    ensures !AfterMessage(c, b, t, pos, deadLetters).1.state.HalfOpen?
  {
    StuckIffProbeIsLost(c, b, t, pos, deadLetters);
    if Reached(t.message, pos) {
      var m := WithVerdict(t.message, pos, B.Admit);
      assert forall i :: 0 <= i < |m.interceptors| ==> Passes(m.interceptors[i].disposition);
      assert Finishes(m);
    }
    hide AfterMessage;
  }

  // ----- Runs of messages -----

  predicate HasBreakerAt(t: Turn, pos: nat) {
    pos < |t.message.interceptors|
  }

  predicate BreakerIsLast(t: Turn, pos: nat) {
    pos + 1 == |t.message.interceptors| && t.message.cancellation.NoToken?
  }

  function AfterMessages(c: B.Config, b: B.Breaker, turns: seq<Turn>, pos: nat, deadLetters: bool): B.Breaker
    requires forall i :: 0 <= i < |turns| ==> HasBreakerAt(turns[i], pos)
  {
    if turns == [] then b
    else
      var n := |turns| - 1;
      assert HasBreakerAt(turns[n], pos);
      AfterMessage(c, AfterMessages(c, b, turns[..n], pos, deadLetters), turns[n], pos, deadLetters).1
  }

  ghost predicate Settled(c: B.Config, b: B.Breaker) {
    R.Inv(c, b) && !b.state.HalfOpen?
  }

  lemma MessageSettles(c: B.Config, b: B.Breaker, t: Turn, pos: nat, deadLetters: bool)
    requires Settled(c, b) && BreakerIsLast(t, pos)
    ensures Settled(c, AfterMessage(c, b, t, pos, deadLetters).1)
  {
    hide AfterMessage, R.Inv;
    MessageKeepsInv(c, b, t, pos, deadLetters);
    LastBreakerIsNeverStuck(c, b, t, pos, deadLetters);
  }

  /** Over any run with the breaker last and no cancellation, it is closed or open after every message. */
  lemma {:induction false} NeverHalfOpenBetweenMessages(c: B.Config, turns: seq<Turn>, pos: nat, deadLetters: bool)
    requires forall i :: 0 <= i < |turns| ==> HasBreakerAt(turns[i], pos) && BreakerIsLast(turns[i], pos)
    ensures Settled(c, AfterMessages(c, B.NewBreaker, turns, pos, deadLetters))
  {
    hide AfterMessage, Settled, BreakerIsLast;
    if turns == [] {
      NewIsSettled(c);
    } else {
      var n := |turns| - 1;
      NeverHalfOpenBetweenMessages(c, turns[..n], pos, deadLetters);
      MessageSettles(c, AfterMessages(c, B.NewBreaker, turns[..n], pos, deadLetters), turns[n], pos, deadLetters);
    }
  }

  lemma NewIsSettled(c: B.Config)
    ensures Settled(c, B.NewBreaker)
  {
  }

  lemma RefusedWhileHalfOpen(c: B.Config, b: B.Breaker, t: Turn, pos: nat, deadLetters: bool)
    requires R.Inv(c, b) && b.state.HalfOpen? && HasBreakerAt(t, pos)
    ensures AfterMessage(c, b, t, pos, deadLetters).1 == b
    ensures Dispatched !in AfterMessage(c, b, t, pos, deadLetters).0
  {
    assert B.AfterReceive(c, b, t.receivedAt) == (B.Refuse, b);
    BreakerCalls(t.message, pos, B.Refuse, deadLetters);
    NotDispatched(t.message, pos, deadLetters);
    hide MessageTrace, CallsIn, WithVerdict, B.AfterReceive, B.AfterComplete, Finishes, Reached, OutcomeOf, R.Inv;
  }

  /** What the breaker refuses is not dispatched. */
  lemma NotDispatched(m: Incoming, pos: nat, deadLetters: bool)
    requires pos < |m.interceptors|
    ensures Dispatched !in MessageTrace(WithVerdict(m, pos, B.Refuse), deadLetters)
  {
    var m' := WithVerdict(m, pos, B.Refuse);
    StopIsFirst(m'.interceptors, pos);
    var at := FirstStop(m'.interceptors).value;
    hide WithVerdict, FirstStop;
    assert Dispatched !in Receipts(at + 1) && Dispatched !in StopActions(m', at, deadLetters);
  }

  /**
    A breaker that is half-open between messages has lost its probe: from then on no message
    is ever dispatched to the actor, however long the run and however late the clock.
  */
  lemma {:induction false} HalfOpenBetweenMessagesIsForever(c: B.Config, b: B.Breaker, turns: seq<Turn>, pos: nat,
                                                            deadLetters: bool, last: Turn)
    requires R.Inv(c, b) && b.state.HalfOpen?
    requires forall i :: 0 <= i < |turns| ==> HasBreakerAt(turns[i], pos)
    requires HasBreakerAt(last, pos)
    ensures AfterMessages(c, b, turns, pos, deadLetters) == b
    ensures AfterMessage(c, b, last, pos, deadLetters).1 == b
    ensures Dispatched !in AfterMessage(c, b, last, pos, deadLetters).0
  {
    hide AfterMessage, R.Inv;
    RefusedWhileHalfOpen(c, b, last, pos, deadLetters);
    if turns != [] {
      var n := |turns| - 1;
      assert HasBreakerAt(turns[n], pos);
      HalfOpenBetweenMessagesIsForever(c, b, turns[..n], pos, deadLetters, turns[n]);
    }
  }

  // ----- A probe that comes back -----

  /**
    A message that meets an open breaker after its cooldown and finishes decides it: if the
    handler fails, or a wrapper keeps it from running, the breaker opens again at that
    instant; otherwise it is as new.
  */
  lemma ProbeComesBack(c: B.Config, b: B.Breaker, t: Turn, pos: nat, deadLetters: bool)
    requires pos < |t.message.interceptors| && R.Inv(c, b)
    requires b.state.Open? && b.openedAt.value + c.cooldown <= t.receivedAt
    requires Finishes(WithVerdict(t.message, pos, B.Admit))
    ensures var b' := AfterMessage(c, b, t, pos, deadLetters).1;
            if O.Fails(WithVerdict(t.message, pos, B.Admit))
            then b'.state == B.Open && b'.openedAt == Some(t.completedAt) && !b'.probeInFlight
            else b' == B.NewBreaker
  {
    BreakerCalls(t.message, pos, B.Admit, deadLetters);
    O.OutcomeIsTold(WithVerdict(t.message, pos, B.Admit));
    hide MessageTrace, CallsIn, OutcomeOf, Finishes, WithVerdict, Reached, B.Pruned, O.Fails;
  }

  /** A message that finishes without an error does not change a closed breaker, and is dispatched. */
  lemma SuccessLeavesClosed(c: B.Config, b: B.Breaker, t: Turn, pos: nat, deadLetters: bool)
    requires pos < |t.message.interceptors| && b.state.Closed?
    requires Finishes(WithVerdict(t.message, pos, B.Admit)) && !O.Fails(WithVerdict(t.message, pos, B.Admit))
    ensures AfterMessage(c, b, t, pos, deadLetters)
         == (MessageTrace(WithVerdict(t.message, pos, B.Admit), deadLetters), b)
  {
    BreakerCalls(t.message, pos, B.Admit, deadLetters);
    O.OutcomeIsTold(WithVerdict(t.message, pos, B.Admit));
    hide MessageTrace, CallsIn, OutcomeOf, Finishes, WithVerdict, Reached, B.Pruned, O.Fails;
  }

  // ----- A lost probe -----

  /** Two interceptors, the breaker's place and another that answers with `d`, around a handler that panics. */
  function Failing(d: Disposition): Incoming {
    Incoming(Ask, [Interceptor(Continue, NoWrapper), Interceptor(d, NoWrapper)], NoToken, Panicked, Resume)
  }

  /** A breaker that opens at the first error, then a probe that the interceptor behind it refuses. */
  const LostProbe: seq<Turn> := [Turn(Failing(Continue), 0, 0), Turn(Failing(Reject("busy")), 5, 5)]

  lemma ProbeCanBeLost()
    ensures forall i :: 0 <= i < |LostProbe| ==> HasBreakerAt(LostProbe[i], 0)
    ensures AfterMessages(B.Config(1, 10, 5), B.NewBreaker, LostProbe, 0, false).state.HalfOpen?
  {
    var c := B.Config(1, 10, 5);
    var tripped := B.Breaker(B.Open, [0], Some(0), false);
    TrippedIsDue();
    ProbeIsRefused();
    LostProbeTurns();
    hide AfterMessage, AfterMessages, R.Inv, Due, WithVerdict, Finishes, Reached;
    FirstErrorOpens(c);
    var probe := LostProbe[1];
    hide *;
    StuckIffProbeIsLost(c, tripped, probe, 0, false);
    TwoMessages(c, B.NewBreaker, LostProbe[0], probe, 0, false);
  }

  lemma LostProbeTurns()
    ensures LostProbe == [LostProbe[0], LostProbe[1]] && LostProbe[1].receivedAt == 5
    ensures forall i :: 0 <= i < |LostProbe| ==> HasBreakerAt(LostProbe[i], 0)
  {
  }

  lemma TrippedIsDue()
    ensures var tripped := B.Breaker(B.Open, [0], Some(0), false);
            R.Inv(B.Config(1, 10, 5), tripped) && Due(B.Config(1, 10, 5), tripped, 5)
  {
  }

  lemma TwoMessages(c: B.Config, b: B.Breaker, first: Turn, second: Turn, pos: nat, deadLetters: bool)
    requires HasBreakerAt(first, pos) && HasBreakerAt(second, pos)
    ensures AfterMessages(c, b, [first, second], pos, deadLetters)
         == AfterMessage(c, AfterMessage(c, b, first, pos, deadLetters).1, second, pos, deadLetters).1
  {
    hide AfterMessage;
    var both := [first, second];
    assert both[..1] == [first] && [first][..0] == [];
    assert AfterMessages(c, b, [], pos, deadLetters) == b;
    assert AfterMessages(c, b, [first], pos, deadLetters) == AfterMessage(c, b, first, pos, deadLetters).1;
  }

  lemma ProbeIsRefused()
    ensures Reached(LostProbe[1].message, 0) && !Finishes(WithVerdict(LostProbe[1].message, 0, B.Admit))
  {
    StopIsFirst(WithVerdict(LostProbe[1].message, 0, B.Admit).interceptors, 1);
  }

  lemma FirstErrorOpens(c: B.Config)
    requires c.errorThreshold == 1
    ensures AfterMessage(c, B.NewBreaker, LostProbe[0], 0, false).1 == B.Breaker(B.Open, [0], Some(0), false)
  {
    var m := LostProbe[0].message;
    BreakerCalls(m, 0, B.Admit, false);
    assert Finishes(WithVerdict(m, 0, B.Admit));
    assert B.Pruned([] + [0], c.errorWindow, 0) == [0];
    hide MessageTrace, CallsIn, DispatchFuture;
  }
}
