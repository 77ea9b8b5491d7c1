/**
  Promises about the trace of one message: who is called, how often and in which order,
  what the caller gets, and how long the message is held.
*/
module PipelineTrace {
  import opened Sequences
  import opened Wrappers
  import opened Pipeline

  // ----- What a trace amounts to -----

  /** The `on_receive` and `on_complete` calls by interceptor, the sleeps, and the answers to the caller. */
  datatype Calls = Calls(receivers: seq<nat>, completers: seq<nat>, sleeps: seq<nat>, answers: nat)

  const Nothing: Calls := Calls([], [], [], 0)

  function Plus(a: Calls, b: Calls): Calls {
    Calls(a.receivers + b.receivers, a.completers + b.completers, a.sleeps + b.sleeps, a.answers + b.answers)
  }

  function CallOf(a: Action): Calls {
    match a
    case Received(i) => Calls([i], [], [], 0)
    case Completed(i, _) => Calls([], [i], [], 0)
    case Slept(d) => Calls([], [], [d], 0)
    case ReplySent => Calls([], [], [], 1)
    case Rejected(_, _) => Calls([], [], [], 1)
    case CancelledBefore => Calls([], [], [], 1)
    case _ => Nothing
  }

  function CallsIn(t: seq<Action>): Calls {
    if t == [] then Nothing else Plus(CallsIn(t[..|t| - 1]), CallOf(t[|t| - 1]))
  }

  lemma PlusNothing(a: Calls)
    ensures Plus(a, Nothing) == a == Plus(Nothing, a)
  {
  }

  /** Receipts, then sleeps, then completions and answers. */
  lemma PlusInTurn(receivers: seq<nat>, completers: seq<nat>, sleeps: seq<nat>, answers: nat)
    ensures Plus(Plus(Calls(receivers, [], [], 0), Calls([], [], sleeps, 0)), Calls([], completers, [], answers))
         == Calls(receivers, completers, sleeps, answers)
  {
  }

  lemma PlusOneCompletion(completers: seq<nat>, next: nat)
    ensures Plus(Calls([], completers, [], 0), Calls([], [next], [], 0)) == Calls([], completers + [next], [], 0)
  {
  }

  lemma PlusAssociates(a: Calls, b: Calls, c: Calls)
    ensures Plus(Plus(a, b), c) == Plus(a, Plus(b, c))
  {
  }

  lemma {:induction false} CallsConcat(a: seq<Action>, b: seq<Action>)
    ensures CallsIn(a + b) == Plus(CallsIn(a), CallsIn(b))
  {
    if b == [] {
      assert a + b == a;
      PlusNothing(CallsIn(a));
    } else {
      var front, last := b[..|b| - 1], b[|b| - 1];
      CallsConcat(a, front);
      assert (a + b)[..|a + b| - 1] == a + front;
      PlusAssociates(CallsIn(a), CallsIn(front), CallOf(last));
    }
  }

  lemma CallsInOne(a: Action)
    ensures CallsIn([a]) == CallOf(a)
  {
    assert [a][..|[a]| - 1] == [];
    PlusNothing(CallOf(a));
  }

  lemma CallsInNone()
    ensures CallsIn([]) == Nothing
  {
  }

  function Range(n: nat): (r: seq<nat>)
    ensures |r| == n && forall i :: 0 <= i < n ==> r[i] == i
  {
    seq(n, i requires i >= 0 => i)
  }

  lemma RangeGrows(n: nat)
    requires n > 0
    ensures Range(n) == Range(n - 1) + [n - 1]
  {
  }

  lemma ReceiptsGrow(n: nat)
    requires n > 0
    ensures Receipts(n) == Receipts(n - 1) + [Received(n - 1)]
  {
  }

  lemma CompletionsGrow(n: nat, outcome: Outcome)
    requires n > 0
    ensures Completions(n, outcome) == Completions(n - 1, outcome) + [Completed(n - 1, outcome)]
  {
  }

  lemma CallsInAppend(t: seq<Action>, a: Action)
    ensures CallsIn(t + [a]) == Plus(CallsIn(t), CallOf(a))
  {
    InitOfAppend(t, a);
    hide Plus, CallOf;
  }

  lemma {:induction false} CallsInReceipts(n: nat)
    ensures CallsIn(Receipts(n)) == Calls(Range(n), [], [], 0)
  {
    if n > 0 {
      CallsInReceipts(n - 1);
      ReceiptsGrow(n);
      RangeGrows(n);
      CallsInAppend(Receipts(n - 1), Received(n - 1));
      hide CallsIn, Receipts, Range;
      ConcatNothing<nat>([]);
    }
  }

  lemma OneCompletion(i: nat, outcome: Outcome)
    ensures CallOf(Completed(i, outcome)) == Calls([], [i], [], 0)
  {
  }

  lemma {:induction false} CallsInCompletions(n: nat, outcome: Outcome)
    ensures CallsIn(Completions(n, outcome)) == Calls([], Range(n), [], 0)
  {
    if n > 0 {
      CallsInCompletions(n - 1, outcome);
      CompletionsGrow(n, outcome);
      RangeGrows(n);
      CallsInAppend(Completions(n - 1, outcome), Completed(n - 1, outcome));
      OneCompletion(n - 1, outcome);
      PlusOneCompletion(Range(n - 1), n - 1);
      hide *;
    }
  }

  lemma {:induction false} CallsInDispatch(t: seq<Action>)
    requires forall a :: a in t ==> IsDispatchAction(a)
    ensures CallsIn(t) == Nothing
  {
    if t != [] {
      assert t[|t| - 1] in t;
      CallsInDispatch(t[..|t| - 1]);
    }
  }

  /** Whether the reply goes out. */
  predicate Replies(m: Incoming) {
    Finishes(m) && !OutcomeOf(m).HandlerError? && m.handler.Returned? && m.handler.reply && m.handler.replySender
  }

  lemma CallsInFinish(m: Incoming)
    requires Finishes(m)
    ensures CallsIn(FinishActions(m)) == Calls([], Range(|m.interceptors|), [], if Replies(m) then 1 else 0)
  {
    var n, outcome := |m.interceptors|, OutcomeOf(m);
    var replies := if Replies(m) then 1 else 0;
    var head := if outcome.HandlerError? then [ErrorReported] else [];
    var completions, tail := Completions(n, outcome), FinishTail(m);
    FinishShape(m);
    CallsInHead(outcome);
    CallsInCompletions(n, outcome);
    CallsInFinishTail(m);
    hide CallsIn, Completions, FinishActions, FinishTail, OutcomeOf, Replies;
    CallsConcat(completions, tail);
    CallsConcat(head, completions + tail);
    PlusCompletions(Range(n), replies);
    PlusNothing(CallsIn(completions + tail));
  }

  lemma FinishShape(m: Incoming)
    ensures FinishActions(m)
         == (if OutcomeOf(m).HandlerError? then [ErrorReported] else [])
            + (Completions(|m.interceptors|, OutcomeOf(m)) + FinishTail(m))
  {
    hide Completions, OutcomeOf;
  }

  lemma CallsInHead(outcome: Outcome)
    ensures CallsIn(if outcome.HandlerError? then [ErrorReported] else []) == Nothing
  {
    CallsInOne(ErrorReported);
  }

  lemma CallsInFinishTail(m: Incoming)
    requires Finishes(m)
    ensures CallsIn(FinishTail(m)) == Calls([], [], [], if Replies(m) then 1 else 0)
  {
    hide Finishes, DispatchFuture;
    CallsInOne(StopRequested);
    CallsInOne(ReplySent);
    CallsInNone();
    hide CallsIn;
  }

  lemma PlusCompletions(completers: seq<nat>, answers: nat)
    ensures Plus(Calls([], completers, [], 0), Calls([], [], [], answers)) == Calls([], completers, [], answers)
  {
  }

  /** What follows the completions. */
  function FinishTail(m: Incoming): seq<Action> {
    if OutcomeOf(m).HandlerError? then
      if m.onError.Stop? || m.onError.Escalate? then [StopRequested] else []
    else if m.handler.reply && m.handler.replySender then [ReplySent] else []
  }

  lemma CallsInTail(m: Incoming)
    requires FirstStop(m.interceptors).None? && !(m.cancellation.Token? && m.cancellation.alreadyCancelled)
    ensures CallsIn(DispatchActions(m))
         == Calls([], if Finishes(m) then Range(|m.interceptors|) else [], [], if Replies(m) then 1 else 0)
  {
    WrappersNeverStop(m);
    var actions := DispatchFuture(m).actions;
    if CancelledDuring(m) {
      var part := actions[..m.cancellation.firesAfter.value];
      forall a | a in part ensures IsDispatchAction(a) { assert a in actions; }
      CallsInDispatch(part);
      CallsInOne(Abandoned);
      CallsConcat(part, [Abandoned]);
    } else {
      CallsInDispatch(actions);
      CallsInFinish(m);
      CallsConcat(actions, FinishActions(m));
      PlusNothing(CallsIn(FinishActions(m)));
    }
  }

  lemma CallsInStopped(m: Incoming, deadLetters: bool)
    requires FirstStop(m.interceptors).Some?
    ensures CallsIn(MessageTrace(m, deadLetters)) == Calls(Range(FirstStop(m.interceptors).value + 1), [], [], 1)
  {
    var at := FirstStop(m.interceptors).value;
    CallsInReceipts(at + 1);
    CallsInStopActions(m, at, deadLetters);
    hide Receipts, CallsIn, StopActions;
    CallsConcat(Receipts(at + 1), StopActions(m, at, deadLetters));
    PlusInTurn(Range(at + 1), [], [], 1);
    PlusNothing(Calls(Range(at + 1), [], [], 0));
  }

  lemma CallsInStopActions(m: Incoming, at: nat, deadLetters: bool)
    requires at < |m.interceptors|
    ensures CallsIn(StopActions(m, at, deadLetters)) == Calls([], [], [], 1)
  {
    var d := m.interceptors[at].disposition;
    CallsInOne(Rejected(at, d));
    CallsInDeadLetter(at, d);
    hide CallsIn;
  }

  lemma CallsInDeadLetter(at: nat, d: Disposition)
    ensures CallsIn([DeadLettered(at), Rejected(at, d)]) == CallOf(Rejected(at, d))
  {
    var t := [DeadLettered(at), Rejected(at, d)];
    assert t[..|t| - 1] == [DeadLettered(at)];
    CallsInOne(DeadLettered(at));
    PlusNothing(CallOf(Rejected(at, d)));
  }

  /** How often the caller is answered: once if stopped, cancelled beforehand or replied to. */
  function ExpectedAnswers(m: Incoming): nat {
    if FirstStop(m.interceptors).Some? then 1
    else if m.cancellation.Token? && m.cancellation.alreadyCancelled then 1
    else if Replies(m) then 1
    else 0
  }

  /** The one sleep of a message that is not stopped. */
  function ExpectedSleeps(m: Incoming): seq<nat> {
    var delay := TotalDelay(m.interceptors, |m.interceptors|);
    if FirstStop(m.interceptors).None? && delay > 0 then [delay] else []
  }

  /** How many interceptors see the message come in. */
  function ReceiversExpected(m: Incoming): nat {
    var stop := FirstStop(m.interceptors);
    if stop.Some? then stop.value + 1 else |m.interceptors|
  }

  lemma CallsInSleeps(m: Incoming)
    requires FirstStop(m.interceptors).None?
    ensures var delay := TotalDelay(m.interceptors, |m.interceptors|);
            CallsIn(if delay > 0 then [Slept(delay)] else []) == Calls([], [], ExpectedSleeps(m), 0)
  {
    var delay := TotalDelay(m.interceptors, |m.interceptors|);
    CallsInOne(Slept(delay));
    CallsInNone();
    assert CallOf(Slept(delay)) == Calls([], [], [delay], 0);
    hide CallsIn, TotalDelay;
  }

  lemma CallsInRest(m: Incoming)
    requires FirstStop(m.interceptors).None?
    ensures var early := m.cancellation.Token? && m.cancellation.alreadyCancelled;
            CallsIn(if early then [CancelledBefore] else DispatchActions(m))
            == Calls([], if Finishes(m) then Range(|m.interceptors|) else [], [], ExpectedAnswers(m))
  {
    if m.cancellation.Token? && m.cancellation.alreadyCancelled {
      CallsInOne(CancelledBefore);
    } else {
      CallsInTail(m);
    }
    hide CallsIn, DispatchActions;
  }

  lemma CallsInPassed(m: Incoming, deadLetters: bool)
    requires FirstStop(m.interceptors).None?
    ensures CallsIn(MessageTrace(m, deadLetters))
         == Calls(Range(|m.interceptors|),
                  if Finishes(m) then Range(|m.interceptors|) else [],
                  ExpectedSleeps(m),
                  ExpectedAnswers(m))
  {
    var n := |m.interceptors|;
    var delay := TotalDelay(m.interceptors, n);
    var early := m.cancellation.Token? && m.cancellation.alreadyCancelled;
    var slept := if delay > 0 then [Slept(delay)] else [];
    var tail := if early then [CancelledBefore] else DispatchActions(m);
    var completers := if Finishes(m) then Range(n) else [];
    assert MessageTrace(m, deadLetters) == Receipts(n) + slept + tail by {
      hide CallsIn, Receipts, DispatchActions, TotalDelay, Finishes;
    }
    CallsInReceipts(n);
    CallsInSleeps(m);
    CallsInRest(m);
    hide *;
    CallsConcat(Receipts(n), slept);
    CallsConcat(Receipts(n) + slept, tail);
    PlusInTurn(Range(n), completers, ExpectedSleeps(m), ExpectedAnswers(m));
  }

  /**
    The whole trace: `on_receive` ran on a prefix of the interceptors, up to and including
    the first that stopped the message; `on_complete` ran on every interceptor, once and in
    order, exactly when the dispatch ran to its end; the message slept at most once, for the
    sum of the delays; and the caller got at most one answer.
  */
  lemma TraceOfMessage(m: Incoming, deadLetters: bool)
    ensures CallsIn(MessageTrace(m, deadLetters))
         == Calls(Range(ReceiversExpected(m)),
                  if Finishes(m) then Range(|m.interceptors|) else [],
                  ExpectedSleeps(m),
                  ExpectedAnswers(m))
    ensures ExpectedAnswers(m) <= 1
  {
    hide CallsIn, MessageTrace, Range, DispatchFuture, TotalDelay, CancelledDuring, OutcomeOf;
    if FirstStop(m.interceptors).Some? { CallsInStopped(m, deadLetters); } else { CallsInPassed(m, deadLetters); }
  }

  lemma RepliedIsFinished(m: Incoming)
    requires Replies(m)
    ensures Finishes(m)
  {
  }

  lemma EndsWithReply(m: Incoming, deadLetters: bool) returns (front: seq<Action>)
    requires Replies(m)
    ensures MessageTrace(m, deadLetters) == front + [ReplySent]
  {
    var n := |m.interceptors|;
    var delay := TotalDelay(m.interceptors, n);
    var slept := if delay > 0 then [Slept(delay)] else [];
    var completions := Completions(n, OutcomeOf(m));
    assert FinishActions(m) == completions + [ReplySent];
    assert MessageTrace(m, deadLetters) == Receipts(n) + slept + (DispatchFuture(m).actions + FinishActions(m));
    hide *;
    front := Receipts(n) + slept + (DispatchFuture(m).actions + completions);
    ConcatAssociates(DispatchFuture(m).actions, completions, [ReplySent]);
    ConcatAssociates(Receipts(n) + slept, DispatchFuture(m).actions + completions, [ReplySent]);
  }

  /** The reply is the last thing that happens, hence after every `on_complete`. */
  lemma ReplyComesLast(m: Incoming, deadLetters: bool)
    requires Replies(m)
    ensures var t := MessageTrace(m, deadLetters);
            && t != [] && t[|t| - 1] == ReplySent
            && CallsIn(t[..|t| - 1]).answers == 0
            && CallsIn(t[..|t| - 1]).completers == Range(|m.interceptors|)
  {
    hide MessageTrace, CallsIn, Replies, Range, ExpectedSleeps, ReceiversExpected;
    TraceOfMessage(m, deadLetters);
    RepliedIsFinished(m);
    var front := EndsWithReply(m, deadLetters);
    InitOfAppend(front, ReplySent);
    CallsInAppend(front, ReplySent);
    ConcatNothing(CallsIn(front).completers);
  }

  // ----- Nesting of the wrappers -----

  /** Entries of the wrapping interceptors from `from` on, outermost first. */
  function Entries(interceptors: seq<Interceptor>, from: nat): seq<Action>
    requires from <= |interceptors|
    decreases |interceptors| - from
  {
    if from == |interceptors| then []
    else (if interceptors[from].wrapping.Wraps? then [Entered(from)] else []) + Entries(interceptors, from + 1)
  }

  /** Exits of the wrapping interceptors from `from` on, innermost first. */
  function Exits(interceptors: seq<Interceptor>, from: nat): seq<Action>
    requires from <= |interceptors|
    decreases |interceptors| - from
  {
    if from == |interceptors| then []
    else Exits(interceptors, from + 1) + if interceptors[from].wrapping.Wraps? then [Exited(from)] else []
  }

  lemma {:induction false} WrappersBracket(interceptors: seq<Interceptor>, from: nat, inner: Future)
    requires from <= |interceptors| && !inner.panicked
    requires forall i :: 0 <= i < |interceptors| ==> interceptors[i].wrapping in {NoWrapper, Wraps}
    ensures Nested(CollectHandlerWrappers(interceptors)[from..], inner)
         == Future(Entries(interceptors, from) + inner.actions + Exits(interceptors, from), inner.delivered, false)
    decreases |interceptors| - from
  {
    var ws := CollectHandlerWrappers(interceptors)[from..];
    if from < |interceptors| {
      WrappersBracket(interceptors, from + 1, inner);
      assert ws[1..] == CollectHandlerWrappers(interceptors)[from + 1..];
      assert ws[0] == CollectHandlerWrappers(interceptors)[from];
      var entries, exits := Entries(interceptors, from + 1), Exits(interceptors, from + 1);
      if interceptors[from].wrapping.Wraps? {
        assert Nested(ws, inner) == WrapFuture(from, Wraps, Nested(ws[1..], inner));
        Bracket(from, entries, inner.actions, exits);
      } else {
        assert [] + entries == entries && exits + [] == exits;
      }
    } else {
      assert [] + inner.actions + [] == inner.actions;
    }
  }

  lemma Bracket(i: nat, entries: seq<Action>, actions: seq<Action>, exits: seq<Action>)
    ensures [Entered(i)] + (entries + actions + exits) + [Exited(i)]
         == ([Entered(i)] + entries) + actions + (exits + [Exited(i)])
  {
  }

  /**
    When every wrapper awaits what it wraps, interceptor 0 is entered first and exited last,
    and the handler runs once in the middle.
  */
  lemma WrappersNest(m: Incoming)
    requires forall i :: 0 <= i < |m.interceptors| ==> m.interceptors[i].wrapping in {NoWrapper, Wraps}
    ensures DispatchFuture(m)
         == Future(Entries(m.interceptors, 0) + [Dispatched, Handled] + Exits(m.interceptors, 0), true, false)
  {
    var inner := Future([Dispatched, Handled], true, false);
    var ws := CollectHandlerWrappers(m.interceptors);
    assert ws[0..] == ws;
    FirstWrapperIsOutermost(ws, inner);
    WrappersBracket(m.interceptors, 0, inner);
    if !(exists i :: 0 <= i < |m.interceptors| && !m.interceptors[i].wrapping.NoWrapper?) {
      NothingWraps(ws, inner);
    }
  }

  lemma {:induction false} NothingWraps(ws: seq<Option<Future -> Future>>, inner: Future)
    requires forall i :: 0 <= i < |ws| ==> ws[i].None?
    ensures Nested(ws, inner) == inner
  {
    if ws != [] { NothingWraps(ws[1..], inner); }
  }

  // ----- Wrappers that swallow the handler -----

  /** An interceptor whose wrapper keeps the handler from running. */
  predicate Swallows(i: Interceptor) {
    i.wrapping.NeverAwaits? || i.wrapping.PanicsBefore?
  }

  lemma {:induction false} DeliveredUnlessSwallowed(interceptors: seq<Interceptor>, from: nat, inner: Future)
    requires from <= |interceptors| && inner.delivered && Dispatched in inner.actions
    ensures var f := Nested(CollectHandlerWrappers(interceptors)[from..], inner);
            && (f.delivered <==> forall i :: from <= i < |interceptors| ==> !Swallows(interceptors[i]))
            && (f.delivered <==> Dispatched in f.actions)
    decreases |interceptors| - from
  {
    var ws := CollectHandlerWrappers(interceptors)[from..];
    if from < |interceptors| {
      DeliveredUnlessSwallowed(interceptors, from + 1, inner);
      assert ws[1..] == CollectHandlerWrappers(interceptors)[from + 1..];
      assert ws[0] == CollectHandlerWrappers(interceptors)[from];
    }
  }

  /**
    The handler runs, and its result reaches the adapter, exactly when no wrapper swallows
    it; a swallowed handler is reported to every interceptor as a handler error.
  */
  lemma HandlerRunsUnlessSwallowed(m: Incoming)
    ensures var f := DispatchFuture(m);
            && (Dispatched in f.actions <==> forall i :: 0 <= i < |m.interceptors| ==> !Swallows(m.interceptors[i]))
            && (OutcomeOf(m).HandlerError? <==> m.handler.Panicked? || Dispatched !in f.actions)
  {
    var inner := Future([Dispatched, Handled], true, false);
    var ws := CollectHandlerWrappers(m.interceptors);
    assert ws[0..] == ws;
    FirstWrapperIsOutermost(ws, inner);
    DeliveredUnlessSwallowed(m.interceptors, 0, inner);
  }
}
