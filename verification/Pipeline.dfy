/**
  What the ractor adapter does with one message: the inbound interceptors, delays,
  handler wrappers, cancellation, dispatch, completion callbacks and the reply.

  Interceptors, the handler and the caller's cancellation token are parties whose behaviour
  for the message is given; the result is the trace of everything that happens.
*/
module Pipeline {
  import opened Sequences
  import opened Wrappers
  import opened Wire

  datatype Disposition =
    | Continue
    | Delay(duration: nat)
    | Drop
    | Reject(reason: string)
    | Retry(after: nat)

  /** What an interceptor's handler wrapper does with the future it is given. */
  datatype Wrapping = NoWrapper | Wraps | NeverAwaits | PanicsBefore | PanicsAfter

  datatype Interceptor = Interceptor(disposition: Disposition, wrapping: Wrapping)

  /** A token may be cancelled already, or fire after some actions of the dispatch. */
  datatype Cancellation = NoToken | Token(alreadyCancelled: bool, firesAfter: Option<nat>)

  datatype HandlerResult = Returned(reply: bool, replySender: bool) | Panicked

  datatype ErrorAction = Resume | Restart | Stop | Escalate

  datatype Incoming = Incoming(
    sendMode: SendMode,
    interceptors: seq<Interceptor>,
    cancellation: Cancellation,
    handler: HandlerResult,
    onError: ErrorAction)

  datatype Outcome = AskSuccess | TellSuccess | HandlerError

  datatype Action =
    | Received(interceptor: nat)
    | DeadLettered(interceptor: nat)
    | Rejected(interceptor: nat, disposition: Disposition)
    | Slept(duration: nat)
    | CancelledBefore
    | Entered(interceptor: nat)
    | Dispatched
    | Handled
    | Exited(interceptor: nat)
    | Abandoned
    | ErrorReported
    | Completed(interceptor: nat, outcome: Outcome)
    | ReplySent
    | StopRequested

  // ----- Handler wrappers -----

  /**
    A future, as what happens when it is driven to its end: its actions, whether the
    handler's result was delivered, and whether it ended in a panic.
  */
  datatype Future = Future(actions: seq<Action>, delivered: bool, panicked: bool)

  /** The future of wrapper `i` around `inner`. */
  function WrapFuture(i: nat, w: Wrapping, inner: Future): Future {
    match w
    case NoWrapper => inner
    case Wraps =>
      if inner.panicked then Future([Entered(i)] + inner.actions, inner.delivered, true)
      else Future([Entered(i)] + inner.actions + [Exited(i)], inner.delivered, false)
    case NeverAwaits => Future([Entered(i), Exited(i)], false, false)
    case PanicsBefore => Future([Entered(i)], false, true)
    case PanicsAfter => Future([Entered(i)] + inner.actions, inner.delivered, true)
  }

  function CollectHandlerWrappers(interceptors: seq<Interceptor>): (ws: seq<Option<Future -> Future>>)
    ensures |ws| == |interceptors|
    ensures forall i :: 0 <= i < |ws| ==> (ws[i].Some? <==> !interceptors[i].wrapping.NoWrapper?)
    ensures forall i, f :: 0 <= i < |ws| && ws[i].Some? ==> ws[i].value(f) == WrapFuture(i, interceptors[i].wrapping, f)
  {
    seq(|interceptors|, i requires 0 <= i < |interceptors| =>
      var w := interceptors[i].wrapping;
      if w.NoWrapper? then None else Some((inner: Future) => WrapFuture(i, w, inner)))
  }

  /** Folds the wrappers in reverse around `inner`, skipping absent ones. */
  function ApplyHandlerWrappers<T>(wrappers: seq<Option<T -> T>>, inner: T): T {
    if wrappers == [] then inner
    else
      var last := wrappers[|wrappers| - 1];
      ApplyHandlerWrappers(wrappers[..|wrappers| - 1], if last.Some? then last.value(inner) else inner)
  }

  /** The nesting that is meant: wrapper 0 around wrapper 1 around ... around `inner`. */
  function Nested<T>(wrappers: seq<Option<T -> T>>, inner: T): T {
    if wrappers == [] then inner
    else
      var rest := Nested(wrappers[1..], inner);
      if wrappers[0].Some? then wrappers[0].value(rest) else rest
  }

  /** The reverse fold puts interceptor 0 outermost. */
  lemma {:induction false} FirstWrapperIsOutermost<T>(wrappers: seq<Option<T -> T>>, inner: T)
    ensures ApplyHandlerWrappers(wrappers, inner) == Nested(wrappers, inner)
  {
    if wrappers != [] {
      var n := |wrappers| - 1;
      var last := wrappers[n];
      FirstWrapperIsOutermost(wrappers[..n], if last.Some? then last.value(inner) else inner);
      NestedInside(wrappers[..n], last, inner);
      assert wrappers[..n] + [last] == wrappers;
    }
  }

  lemma {:induction false} NestedInside<T>(outer: seq<Option<T -> T>>, last: Option<T -> T>, inner: T)
    ensures Nested(outer + [last], inner) == Nested(outer, if last.Some? then last.value(inner) else inner)
  {
    if outer == [] {
      assert (outer + [last])[1..] == [];
    } else {
      NestedInside(outer[1..], last, inner);
      assert (outer + [last])[1..] == outer[1..] + [last];
    }
  }

  // ----- One message -----

  predicate Passes(d: Disposition) {
    d.Continue? || d.Delay?
  }

  /** The first interceptor from `from` on that stops the message. */
  function FirstStop(interceptors: seq<Interceptor>, from: nat := 0): (r: Option<nat>)
    requires from <= |interceptors|
    ensures r.Some? ==> from <= r.value < |interceptors| && !Passes(interceptors[r.value].disposition)
    ensures forall i :: from <= i < (if r.Some? then r.value else |interceptors|) ==>
                          Passes(interceptors[i].disposition)
    decreases |interceptors| - from
  {
    if from == |interceptors| then None
    else if !Passes(interceptors[from].disposition) then Some(from)
    else FirstStop(interceptors, from + 1)
  }

  function DelayOf(d: Disposition): nat {
    if d.Delay? then d.duration else 0
  }

  /** The delays that the first `n` interceptors ask for. */
  function TotalDelay(interceptors: seq<Interceptor>, n: nat): nat
    requires n <= |interceptors|
  {
    if n == 0 then 0 else TotalDelay(interceptors, n - 1) + DelayOf(interceptors[n - 1].disposition)
  }

  function Receipts(n: nat): (r: seq<Action>)
    ensures |r| == n
  {
    seq(n, i requires i >= 0 => Received(i))
  }

  function Completions(n: nat, outcome: Outcome): (r: seq<Action>)
    ensures |r| == n
  {
    seq(n, i requires i >= 0 => Completed(i, outcome))
  }

  /** The dispatch with all its wrappers around it. */
  function DispatchFuture(m: Incoming): Future {
    var inner := Future([Dispatched, Handled], true, false);
    if exists i :: 0 <= i < |m.interceptors| && !m.interceptors[i].wrapping.NoWrapper?
    then ApplyHandlerWrappers(CollectHandlerWrappers(m.interceptors), inner)
    else inner
  }

  /** The token fires before the dispatch has ended. */
  predicate CancelledDuring(m: Incoming) {
    m.cancellation.Token? && m.cancellation.firesAfter.Some?
    && m.cancellation.firesAfter.value < |DispatchFuture(m).actions|
  }

  function OutcomeOf(m: Incoming): Outcome {
    if !DispatchFuture(m).delivered || m.handler.Panicked? then HandlerError
    else if m.handler.reply && m.sendMode.Ask? then AskSuccess
    else TellSuccess
  }

  function FinishActions(m: Incoming): seq<Action> {
    var outcome := OutcomeOf(m);
    var completions := Completions(|m.interceptors|, outcome);
    if outcome.HandlerError? then
      [ErrorReported] + completions + if m.onError.Stop? || m.onError.Escalate? then [StopRequested] else []
    else completions + if m.handler.reply && m.handler.replySender then [ReplySent] else []
  }

  function DispatchActions(m: Incoming): seq<Action> {
    var future := DispatchFuture(m);
    if CancelledDuring(m) then future.actions[..m.cancellation.firesAfter.value] + [Abandoned]
    else future.actions + FinishActions(m)
  }

  function StopActions(m: Incoming, at: nat, deadLetters: bool): seq<Action>
    requires at < |m.interceptors|
  {
    var d := m.interceptors[at].disposition;
    if d.Drop? && deadLetters then [DeadLettered(at), Rejected(at, d)] else [Rejected(at, d)]
  }

  function MessageTrace(m: Incoming, deadLetters: bool): seq<Action> {
    var n := |m.interceptors|;
    var stop := FirstStop(m.interceptors);
    if stop.Some? then Receipts(stop.value + 1) + StopActions(m, stop.value, deadLetters)
    else
      var delay := TotalDelay(m.interceptors, n);
      Receipts(n)
      + (if delay > 0 then [Slept(delay)] else [])
      + if m.cancellation.Token? && m.cancellation.alreadyCancelled then [CancelledBefore] else DispatchActions(m)
  }

  /** The actor adapter's state that outlives a message. */
  class RactorActorState {
    const hasDeadLetterHandler: bool
    var sendMode: Option<SendMode>
    var cancellationToken: Option<Cancellation>
    var stopReason: Option<string>

    constructor (hasDeadLetterHandler: bool)
      ensures this.hasDeadLetterHandler == hasDeadLetterHandler
      ensures sendMode == None && cancellationToken == None && stopReason == None
    {
      this.hasDeadLetterHandler := hasDeadLetterHandler;
      sendMode, cancellationToken, stopReason := None, None, None;
    }

    method Handle(m: Incoming) returns (trace: seq<Action>)
      modifies this
      ensures trace == MessageTrace(m, hasDeadLetterHandler)
      ensures sendMode == Some(m.sendMode)
      ensures cancellationToken == if FirstStop(m.interceptors).Some? then old(cancellationToken) else None
      ensures stopReason == if StopRequested in trace then Some("handler panicked") else old(stopReason)
    {
      hide DispatchFuture, FinishActions, OutcomeOf, TotalDelay, Receipts, StopActions, FirstStop;
      sendMode := Some(m.sendMode);
      NoStopInReceipts(m, hasDeadLetterHandler);
      var stopped, totalDelay;
      trace, stopped, totalDelay := ReceiveAll(m);
      if stopped { return; }
      if totalDelay > 0 {
        trace := trace + [Slept(totalDelay)];
      }
      cancellationToken := if m.cancellation.Token? then Some(m.cancellation) else None;
      if m.cancellation.Token? && m.cancellation.alreadyCancelled {
        trace := trace + [CancelledBefore];
        cancellationToken := None;
        return;
      }
      var future := DispatchFuture(m);
      if CancelledDuring(m) {
        trace := trace + (future.actions[..m.cancellation.firesAfter.value] + [Abandoned]);
        cancellationToken := None;
        return;
      }
      cancellationToken := None;
      var finish := Finish(m);
      trace := trace + (future.actions + finish);
    }

    /** Asks the interceptors in order, up to the first that stops the message. */
    method ReceiveAll(m: Incoming) returns (trace: seq<Action>, stopped: bool, totalDelay: nat)
      ensures stopped <==> FirstStop(m.interceptors).Some?
      ensures !stopped ==> totalDelay == TotalDelay(m.interceptors, |m.interceptors|)
      ensures trace == if stopped then
                         var at := FirstStop(m.interceptors).value;
                         Receipts(at + 1) + StopActions(m, at, hasDeadLetterHandler)
                       else Receipts(|m.interceptors|)
    {
      trace, stopped, totalDelay := [], false, 0;
      for i := 0 to |m.interceptors|
        invariant trace == Receipts(i)
        invariant !stopped && totalDelay == TotalDelay(m.interceptors, i)
        invariant FirstStop(m.interceptors) == FirstStop(m.interceptors, i)
      {
        trace := trace + [Received(i)];
        assert trace == Receipts(i + 1);
        var disposition := m.interceptors[i].disposition;
        if disposition.Delay? {
          totalDelay := totalDelay + disposition.duration;
        } else if !disposition.Continue? {
          stopped := true;
          if disposition.Drop? && hasDeadLetterHandler {
            trace := trace + [DeadLettered(i)];
          }
          trace := trace + [Rejected(i, disposition)];
          assert trace == Receipts(i + 1) + StopActions(m, i, hasDeadLetterHandler);
          return;
        }
      }
    }

    /** Completion callbacks, then the reply or the error action. */
    method Finish(m: Incoming) returns (actions: seq<Action>)
      modifies this`stopReason
      ensures actions == FinishActions(m)
      ensures stopReason == if StopRequested in actions then Some("handler panicked") else old(stopReason)
    {
      var outcome := OutcomeOf(m);
      var completions := CompleteAll(|m.interceptors|, outcome);
      NoStopInCompletions(|m.interceptors|, outcome);
      hide Completions, OutcomeOf;
      if outcome.HandlerError? {
        actions := [ErrorReported] + completions;
        match m.onError {
          case Resume =>
            ConcatNothing(actions);
          case Restart =>
            ConcatNothing(actions);
          case _ =>
            stopReason := Some("handler panicked");
            actions := actions + [StopRequested];
        }
      } else if m.handler.reply && m.handler.replySender {
        actions := completions + [ReplySent];
      } else {
        actions := completions;
        ConcatNothing(actions);
      }
    }

    /** Calls `on_complete` on every interceptor. */
    method CompleteAll(n: nat, outcome: Outcome) returns (actions: seq<Action>)
      ensures actions == Completions(n, outcome)
    {
      actions := [];
      for i := 0 to n
        invariant actions == Completions(i, outcome)
      {
        actions := actions + [Completed(i, outcome)];
      }
    }
  }

  lemma NoStopInCompletions(n: nat, outcome: Outcome)
    ensures StopRequested !in Completions(n, outcome)
  {
  }

  /** A stop is requested only by the finishing actions. */
  lemma NoStopInReceipts(m: Incoming, deadLetters: bool)
    ensures StopRequested in MessageTrace(m, deadLetters) <==>
            Finishes(m) && StopRequested in FinishActions(m)
  {
    WrappersNeverStop(m);
    var n := |m.interceptors|;
    assert StopRequested !in Receipts(n);
    if FirstStop(m.interceptors).None? {
      var head := Receipts(n) + (var d := TotalDelay(m.interceptors, n); if d > 0 then [Slept(d)] else []);
      assert StopRequested !in head;
      if Finishes(m) {
        assert MessageTrace(m, deadLetters) == head + (DispatchFuture(m).actions + FinishActions(m));
      } else if CancelledDuring(m) {
        var k := m.cancellation.firesAfter.value;
        assert forall a :: a in DispatchFuture(m).actions[..k] ==> a in DispatchFuture(m).actions;
        assert StopRequested !in DispatchFuture(m).actions[..k] + [Abandoned];
      }
    }
  }

  /** The message gets past the interceptors, and its dispatch runs to an end. */
  predicate Finishes(m: Incoming) {
    && FirstStop(m.interceptors).None?
    && !(m.cancellation.Token? && m.cancellation.alreadyCancelled)
    && !CancelledDuring(m)
  }

  predicate IsDispatchAction(a: Action) {
    a.Entered? || a.Exited? || a.Dispatched? || a.Handled?
  }

  lemma {:induction false} WrappedActions(interceptors: seq<Interceptor>, n: nat, inner: Future)
    requires n <= |interceptors| && forall a :: a in inner.actions ==> IsDispatchAction(a)
    ensures forall a :: a in ApplyHandlerWrappers(CollectHandlerWrappers(interceptors)[..n], inner).actions ==>
                          IsDispatchAction(a)
  {
    if n > 0 {
      var ws := CollectHandlerWrappers(interceptors)[..n];
      assert ws[..n - 1] == CollectHandlerWrappers(interceptors)[..n - 1];
      var last := ws[n - 1];
      WrappedActions(interceptors, n - 1, if last.Some? then last.value(inner) else inner);
    }
  }

  /** The dispatch itself never calls back, replies or stops anything. */
  lemma WrappersNeverStop(m: Incoming)
    ensures forall a :: a in DispatchFuture(m).actions ==> IsDispatchAction(a)
  {
    var ws := CollectHandlerWrappers(m.interceptors);
    assert ws[..|ws|] == ws;
    WrappedActions(m.interceptors, |ws|, Future([Dispatched, Handled], true, false));
  }
}
