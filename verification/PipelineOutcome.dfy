/**
  What becomes of a message, told from the dispositions, wrappers, handler and cancellation
  token alone: who rejects it, how long it sleeps, which outcome is reported, and what a
  cancellation cuts off.
*/
module PipelineOutcome {
  import opened Sequences
  import opened Wrappers
  import opened Wire
  import opened Pipeline
  import opened PipelineTrace

  /** Interceptors 0 to n - 1 have each been asked once, in order. */
  function Asked(n: nat): (t: seq<Action>)
    ensures |t| == n && forall i :: 0 <= i < n ==> t[i] == Received(i)
  {
    seq(n, i requires 0 <= i => Received(i))
  }

  /** Interceptor i is the first to answer with a drop, a rejection or a retry. */
  predicate StopsAt(m: Incoming, i: nat) {
    && i < |m.interceptors|
    && var d := m.interceptors[i].disposition;
    (d.Drop? || d.Reject? || d.Retry?)
    && forall j :: 0 <= j < i ==> m.interceptors[j].disposition.Continue? || m.interceptors[j].disposition.Delay?
  }

  predicate AllLetThrough(m: Incoming) {
    forall i :: 0 <= i < |m.interceptors| ==>
                  m.interceptors[i].disposition.Continue? || m.interceptors[i].disposition.Delay?
  }

  /** Every message is let through or stopped by one of its interceptors. */
  lemma StopsOrPasses(m: Incoming)
    ensures AllLetThrough(m) || exists i: nat :: StopsAt(m, i)
    ensures AllLetThrough(m) <==> FirstStop(m.interceptors).None?
  {
    var stop := FirstStop(m.interceptors);
    if stop.Some? { assert StopsAt(m, stop.value); }
  }

  lemma StopsAtFirst(m: Incoming, i: nat)
    requires StopsAt(m, i)
    ensures FirstStop(m.interceptors) == Some(i)
  {
  }

  /**
    A message is stopped by the first interceptor that answers with a drop, a rejection or a
    retry: the caller is refused with that answer, a dropped message goes to the dead-letter
    handler, if there is one, and nothing else happens. In particular no further interceptor
    is asked, nothing is dispatched and nothing completes.
  */
  lemma StoppedMessage(m: Incoming, deadLetters: bool, i: nat)
    requires StopsAt(m, i)
    ensures var d := m.interceptors[i].disposition;
            MessageTrace(m, deadLetters)
            == Asked(i + 1) + (if d == Drop && deadLetters then [DeadLettered(i), Rejected(i, d)] else [Rejected(i, d)])
  {
    StopsAtFirst(m, i);
    assert Asked(i + 1) == Receipts(i + 1);
    hide StopsAt, Receipts, Asked;
  }

  lemma StopIsDrop(m: Incoming, i: nat)
    requires StopsAt(m, i)
    ensures i < |m.interceptors|
  {
  }

  lemma RejectionIn(i: nat, d: Disposition, deadLetters: bool)
    ensures var rest := if d == Drop && deadLetters then [DeadLettered(i), Rejected(i, d)] else [Rejected(i, d)];
            var t := Asked(i + 1) + rest;
            && multiset(t)[Rejected(i, d)] == 1
            && (DeadLettered(i) in t <==> d.Drop? && deadLetters)
            && forall a :: a in t ==>
                             || a == Rejected(i, d) || a == DeadLettered(i)
                             || (a.Received? && a.interceptor <= i)
  {
    var rest := if d == Drop && deadLetters then [DeadLettered(i), Rejected(i, d)] else [Rejected(i, d)];
    var asked := Asked(i + 1);
    forall a | a in asked ensures a.Received? && a.interceptor <= i {
      var k :| 0 <= k < |asked| && asked[k] == a;
    }
    hide Asked;
    assert Rejected(i, d) !in asked && DeadLettered(i) !in asked;
    assert multiset(asked + rest) == multiset(asked) + multiset(rest);
    assert multiset(asked)[Rejected(i, d)] == 0;
  }

  /** So there is one rejection, with the interceptor's own answer, and no one else hears of the message. */
  lemma RejectionIsFinal(m: Incoming, deadLetters: bool, i: nat)
    requires StopsAt(m, i)
    ensures var d, t := m.interceptors[i].disposition, MessageTrace(m, deadLetters);
            && multiset(t)[Rejected(i, d)] == 1
            && (DeadLettered(i) in t <==> d.Drop? && deadLetters)
            && forall a :: a in t ==>
                             || a == Rejected(i, d) || a == DeadLettered(i)
                             || (a.Received? && a.interceptor <= i)
  {
    StoppedMessage(m, deadLetters, i);
    StopIsDrop(m, i);
    hide *;
    RejectionIn(i, m.interceptors[i].disposition, deadLetters);
  }

  /** A message that every interceptor lets through is not rejected, nor dead-lettered. */
  lemma NothingRejected(m: Incoming, deadLetters: bool)
    requires AllLetThrough(m)
    ensures forall a :: a in MessageTrace(m, deadLetters) ==> !a.Rejected? && !a.DeadLettered?
  {
    PassedMessage(m, deadLetters);
    WrappersNeverStop(m);
    var actions, finish := DispatchFuture(m).actions, FinishActions(m);
    assert forall a :: a in BeforeDispatch(m) ==> !a.Rejected? && !a.DeadLettered?;
    assert forall a :: a in finish ==> !a.Rejected? && !a.DeadLettered?;
    hide MessageTrace, BeforeDispatch, DispatchFuture, FinishActions, AllLetThrough;
    if CancelledDuring(m) {
      var part := actions[..m.cancellation.firesAfter.value];
      assert forall a :: a in part ==> a in actions;
    }
  }

  // ----- Sleeping -----

  function Sum(s: seq<nat>): nat {
    if s == [] then 0 else s[0] + Sum(s[1..])
  }

  /** The delay each interceptor asks for. */
  function Delays(m: Incoming): (s: seq<nat>)
    ensures |s| == |m.interceptors|
    ensures forall i :: 0 <= i < |s| ==>
                          s[i] == match m.interceptors[i].disposition case Delay(d) => d case _ => 0
  {
    seq(|m.interceptors|, i requires 0 <= i < |m.interceptors| =>
      match m.interceptors[i].disposition
      case Delay(d) => d
      case _ => 0)
  }

  lemma {:induction false} SumOfInit(s: seq<nat>)
    requires s != []
    ensures Sum(s) == Sum(s[..|s| - 1]) + s[|s| - 1]
  {
    if |s| > 1 {
      SumOfInit(s[1..]);
      assert s[1..][..|s[1..]| - 1] == s[..|s| - 1][1..];
    }
  }

  lemma {:induction false} DelaysAddUp(m: Incoming, n: nat)
    requires AllLetThrough(m) && n <= |m.interceptors|
    ensures TotalDelay(m.interceptors, n) == Sum(Delays(m)[..n])
  {
    if n > 0 {
      DelaysAddUp(m, n - 1);
      SumOfInit(Delays(m)[..n]);
      assert Delays(m)[..n][..n - 1] == Delays(m)[..n - 1];
    }
  }

  /** What happens to a message that is let through before it is dispatched: it sleeps once, for all the delays. */
  function BeforeDispatch(m: Incoming): seq<Action> {
    Asked(|m.interceptors|) + if Sum(Delays(m)) > 0 then [Slept(Sum(Delays(m)))] else []
  }

  /** A message that is let through is asked about, sleeps, and is then dispatched unless it was cancelled before. */
  lemma PassedMessage(m: Incoming, deadLetters: bool)
    requires AllLetThrough(m)
    ensures var early := m.cancellation.Token? && m.cancellation.alreadyCancelled;
            MessageTrace(m, deadLetters)
            == BeforeDispatch(m) + if early then [CancelledBefore] else DispatchActions(m)
  {
    var n := |m.interceptors|;
    StopsOrPasses(m);
    DelaysAddUp(m, n);
    TakeAll(Delays(m));
    assert Asked(n) == Receipts(n);
    hide Receipts, Asked, TotalDelay, Sum, Delays, DispatchActions, AllLetThrough;
    ConcatNothing(Asked(n));
  }

  // ----- What a cancellation cuts off -----

  /** The actions of the dispatch in `t`. */
  function DispatchCount(t: seq<Action>): nat {
    if t == [] then 0
    else
      var a := t[|t| - 1];
      DispatchCount(t[..|t| - 1]) + if a == Dispatched || a == Handled || a.Entered? || a.Exited? then 1 else 0
  }

  lemma {:induction false} DispatchCountConcat(a: seq<Action>, b: seq<Action>)
    ensures DispatchCount(a + b) == DispatchCount(a) + DispatchCount(b)
  {
    if b == [] {
      ConcatNothing(a);
    } else {
      DispatchCountConcat(a, b[..|b| - 1]);
      InitOfConcat(a, b);
    }
  }

  lemma {:induction false} DispatchCountAll(t: seq<Action>)
    requires forall a :: a in t ==> IsDispatchAction(a)
    ensures DispatchCount(t) == |t|
  {
    if t != [] {
      assert t[|t| - 1] in t;
      DispatchCountAll(t[..|t| - 1]);
    }
  }

  lemma {:induction false} DispatchCountNone(t: seq<Action>)
    requires forall a :: a in t ==> !IsDispatchAction(a)
    ensures DispatchCount(t) == 0
  {
    if t != [] {
      assert t[|t| - 1] in t;
      DispatchCountNone(t[..|t| - 1]);
    }
  }

  function Uncancelled(m: Incoming): Incoming { m.(cancellation := NoToken) }

  /**
    What a cancellation token changes, compared with the same message without one. Nothing
    for a message that is stopped. Otherwise a token that is already cancelled ends the trace
    before the dispatch; one that fires after k of its actions cuts it off there, if it has
    more than k; and one that fires later or never changes nothing.
  */
  lemma CancellationCutsOff(m: Incoming, deadLetters: bool)
    requires m.cancellation.Token?
    ensures var whole, t := MessageTrace(Uncancelled(m), deadLetters), MessageTrace(m, deadLetters);
            var start := |BeforeDispatch(m)|;
            if !AllLetThrough(m) then t == whole
            else
              && start + DispatchCount(whole) <= |whole|
              && if m.cancellation.alreadyCancelled then t == whole[..start] + [CancelledBefore]
                 else match m.cancellation.firesAfter
                      case Some(k) =>
                        t == if k < DispatchCount(whole) then whole[..start + k] + [Abandoned] else whole
                      case None => t == whole
  {
    var m0 := Uncancelled(m);
    StopsOrPasses(m);
    StopsOrPasses(m0);
    hide *;
    if AllLetThrough(m) {
      SameButForToken(m);
      PassedMessage(m, deadLetters);
      PassedMessage(m0, deadLetters);
      DispatchCountOf(m);
      DispatchUnlessCancelled(m);
      DispatchUnlessCancelled(m0);
      ConcatAssociates(BeforeDispatch(m), DispatchFuture(m).actions, FinishActions(m));
      if m.cancellation.firesAfter.Some? {
        CutOff(BeforeDispatch(m), DispatchFuture(m).actions, FinishActions(m), m.cancellation.firesAfter.value);
      }
      CutOff(BeforeDispatch(m), DispatchFuture(m).actions, FinishActions(m), 0);
    } else {
      StoppedAnyway(m, deadLetters);
    }
  }

  lemma SameButForToken(m: Incoming)
    ensures var m0 := Uncancelled(m);
            && m0.cancellation == NoToken && (AllLetThrough(m0) <==> AllLetThrough(m))
            && DispatchFuture(m0) == DispatchFuture(m) && FinishActions(m0) == FinishActions(m)
            && BeforeDispatch(m0) == BeforeDispatch(m)
  {
    hide ApplyHandlerWrappers, CollectHandlerWrappers, Completions, Sum;
    assert Delays(Uncancelled(m)) == Delays(m);
  }

  lemma DispatchUnlessCancelled(m: Incoming)
    ensures var actions := DispatchFuture(m).actions;
            DispatchActions(m)
            == if m.cancellation.Token? && m.cancellation.firesAfter.Some?
                  && m.cancellation.firesAfter.value < |actions|
            then actions[..m.cancellation.firesAfter.value] + [Abandoned]
            else actions + FinishActions(m)
  {
    hide DispatchFuture, FinishActions;
  }

  lemma StoppedAnyway(m: Incoming, deadLetters: bool)
    requires FirstStop(m.interceptors).Some?
    ensures MessageTrace(m, deadLetters) == MessageTrace(Uncancelled(m), deadLetters)
  {
    hide FirstStop;
  }

  lemma CutOff(before: seq<Action>, actions: seq<Action>, finish: seq<Action>, k: nat)
    ensures (before + (actions + finish))[..|before|] == before
    ensures k <= |actions| ==>
              (before + (actions + finish))[..|before| + k] == before + actions[..k]
  {
  }

  lemma DispatchCountOf(m: Incoming)
    ensures DispatchCount(BeforeDispatch(m) + (DispatchFuture(m).actions + FinishActions(m)))
         == |DispatchFuture(m).actions|
  {
    WrappersNeverStop(m);
    var before, actions, finish := BeforeDispatch(m), DispatchFuture(m).actions, FinishActions(m);
    assert forall a :: a in before ==> !IsDispatchAction(a);
    assert forall a :: a in finish ==> !IsDispatchAction(a);
    hide BeforeDispatch, DispatchFuture, FinishActions, DispatchCount;
    DispatchCountNone(before);
    DispatchCountAll(actions);
    DispatchCountNone(finish);
    DispatchCountConcat(before, actions + finish);
    DispatchCountConcat(actions, finish);
  }

  // ----- The outcome -----

  /** The handler panics, or a wrapper keeps it from running. */
  ghost predicate Fails(m: Incoming) {
    || m.handler == Panicked
    || exists i :: 0 <= i < |m.interceptors| && m.interceptors[i].wrapping in {NeverAwaits, PanicsBefore}
  }

  /** The outcome that the interceptors are told of. */
  ghost function Told(m: Incoming): Outcome {
    if Fails(m) then HandlerError
    else if m.sendMode == Ask && m.handler.reply then AskSuccess
    else TellSuccess
  }

  lemma OutcomeIsTold(m: Incoming)
    ensures OutcomeOf(m) == Told(m)
  {
    HandlerRunsUnlessSwallowed(m);
    assert OutcomeOf(m).HandlerError? <==> Fails(m) by {
      hide DispatchFuture, OutcomeOf;
      assert forall i :: 0 <= i < |m.interceptors| ==>
                           (Swallows(m.interceptors[i]) <==> m.interceptors[i].wrapping in {NeverAwaits, PanicsBefore});
    }
    hide DispatchFuture;
  }

  /**
    How a message without a token that is let through ends: its dispatch, then, of an error,
    a report; one completion for each interceptor in order, all with the same outcome; and
    last a stop if the error action is to stop or to escalate, or the reply of a handler that
    has one for a caller that waits for it.
  */
  lemma FinishedMessage(m: Incoming, deadLetters: bool)
    requires AllLetThrough(m) && m.cancellation.NoToken?
    ensures var n := |m.interceptors|;
            var completions := seq(n, i requires 0 <= i => Completed(i, Told(m)));
            MessageTrace(m, deadLetters)
            == BeforeDispatch(m)
            + (DispatchFuture(m).actions
               + if Fails(m)
               then [ErrorReported] + completions + (if m.onError in {Stop, Escalate} then [StopRequested] else [])
               else completions + if m.handler.reply && m.handler.replySender then [ReplySent] else [])
  {
    PassedMessage(m, deadLetters);
    OutcomeIsTold(m);
    var completions := seq(|m.interceptors|, i requires 0 <= i => Completed(i, Told(m)));
    assert completions == Completions(|m.interceptors|, Told(m));
    hide MessageTrace, DispatchFuture, BeforeDispatch, OutcomeOf, Completions, Told;
    assert Told(m) == HandlerError <==> Fails(m) by { assert Told(m) == Told(m); }
  }

  // ----- Wrappers that fail -----

  predicate PanicsItself(i: Interceptor) {
    i.wrapping == PanicsBefore || i.wrapping == PanicsAfter
  }

  /** No wrapper from `from` on keeps interceptor j's from being driven. */
  predicate Driven(interceptors: seq<Interceptor>, from: nat, j: nat) {
    j < |interceptors| && forall i :: from <= i < j ==> interceptors[i].wrapping !in {NeverAwaits, PanicsBefore}
  }

  /** Some wrapper from `from` on is driven and panics. */
  ghost predicate SomePanic(interceptors: seq<Interceptor>, from: nat) {
    exists k :: from <= k < |interceptors| && PanicsItself(interceptors[k]) && Driven(interceptors, from, k)
  }

  ghost predicate IsLeft(interceptors: seq<Interceptor>, from: nat, j: nat) {
    && Driven(interceptors, from, j)
    && (interceptors[j].wrapping == NeverAwaits
        || (interceptors[j].wrapping == Wraps && !SomePanic(interceptors, j + 1)))
  }

  lemma SomePanicStep(interceptors: seq<Interceptor>, from: nat)
    requires from < |interceptors|
    ensures SomePanic(interceptors, from) <==>
            || PanicsItself(interceptors[from])
            || (interceptors[from].wrapping !in {NeverAwaits, PanicsBefore} && SomePanic(interceptors, from + 1))
  {
    if SomePanic(interceptors, from) {
      var k :| from <= k < |interceptors| && PanicsItself(interceptors[k]) && Driven(interceptors, from, k);
      if k > from {
        assert interceptors[from].wrapping !in {NeverAwaits, PanicsBefore};
        assert Driven(interceptors, from + 1, k);
      }
    }
    if PanicsItself(interceptors[from]) { assert Driven(interceptors, from, from); }
    if interceptors[from].wrapping !in {NeverAwaits, PanicsBefore} && SomePanic(interceptors, from + 1) {
      var k :| from < k < |interceptors| && PanicsItself(interceptors[k]) && Driven(interceptors, from + 1, k);
      assert Driven(interceptors, from, k);
    }
  }

  lemma DrivenStep(interceptors: seq<Interceptor>, from: nat, j: nat)
    requires from < |interceptors|
    ensures Driven(interceptors, from, from)
    ensures Driven(interceptors, from, j) ==> j < |interceptors|
    ensures j > from ==>
              (Driven(interceptors, from, j) <==>
               interceptors[from].wrapping !in {NeverAwaits, PanicsBefore} && Driven(interceptors, from + 1, j))
  {
  }

  lemma WrapUnwinds(i: nat, w: Wrapping, inner: Future, j: nat)
    ensures var f, drives := WrapFuture(i, w, inner), w !in {NeverAwaits, PanicsBefore};
            && (f.panicked <==> w in {PanicsBefore, PanicsAfter} || (drives && inner.panicked))
            && (Entered(j) in f.actions <==> (j == i && w != NoWrapper) || (drives && Entered(j) in inner.actions))
            && (Exited(j) in f.actions <==>
                || (j == i && (w == NeverAwaits || (w == Wraps && !inner.panicked)))
                || (drives && Exited(j) in inner.actions))
  {
  }

  lemma {:induction false} WrappersUnwind(interceptors: seq<Interceptor>, from: nat, inner: Future, j: nat)
    requires from <= |interceptors| && !inner.panicked
    requires forall a :: a in inner.actions ==> a == Dispatched || a == Handled
    ensures var f := Nested(CollectHandlerWrappers(interceptors)[from..], inner);
            && (f.panicked <==> SomePanic(interceptors, from))
            && (Entered(j) in f.actions <==>
                from <= j && Driven(interceptors, from, j) && interceptors[j].wrapping != NoWrapper)
            && (Exited(j) in f.actions <==> from <= j && IsLeft(interceptors, from, j))
    decreases |interceptors| - from
  {
    var ws := CollectHandlerWrappers(interceptors)[from..];
    if from < |interceptors| {
      WrappersUnwind(interceptors, from + 1, inner, j);
      SomePanicStep(interceptors, from);
      assert ws[1..] == CollectHandlerWrappers(interceptors)[from + 1..];
      assert ws[0] == CollectHandlerWrappers(interceptors)[from];
      WrapUnwinds(from, interceptors[from].wrapping, Nested(ws[1..], inner), j);
      DrivenStep(interceptors, from, j);
      hide SomePanic, CollectHandlerWrappers, WrapFuture, Driven;
    }
  }

  /**
    Which wrappers are entered and left. A wrapper is entered exactly when none around it
    keeps it from being driven. It is left exactly when it has not awaited what it wraps, or
    has and nothing in it panicked; a panic leaves no wrapper around it.
  */
  lemma PanicUnwindsWrappers(m: Incoming, j: nat)
    ensures var actions := DispatchFuture(m).actions;
            && (Entered(j) in actions <==> Driven(m.interceptors, 0, j) && m.interceptors[j].wrapping != NoWrapper)
            && (Exited(j) in actions <==> IsLeft(m.interceptors, 0, j))
  {
    var inner := Future([Dispatched, Handled], true, false);
    var ws := CollectHandlerWrappers(m.interceptors);
    assert ws[0..] == ws;
    FirstWrapperIsOutermost(ws, inner);
    WrappersUnwind(m.interceptors, 0, inner, j);
    hide SomePanic, Nested, ApplyHandlerWrappers;
  }

  /** Every `Exited(j)` in `t` has an `Entered(j)` before it. */
  ghost predicate EnteredFirst(t: seq<Action>, j: nat) {
    forall p :: 0 <= p < |t| && t[p] == Exited(j) ==> Entered(j) in t[..p]
  }

  lemma EnteredFirstInside(before: Action, t: seq<Action>, j: nat)
    requires EnteredFirst(t, j) && before != Exited(j)
    ensures EnteredFirst([before] + t, j)
  {
    forall p | 0 <= p < |[before] + t| && ([before] + t)[p] == Exited(j)
      ensures Entered(j) in ([before] + t)[..p]
    {
      assert ([before] + t)[..p] == [before] + t[..p - 1];
    }
  }

  lemma EnteredFirstAround(t: seq<Action>, last: Action, j: nat)
    requires EnteredFirst(t, j) && (last == Exited(j) ==> Entered(j) in t)
    ensures EnteredFirst(t + [last], j)
  {
    assert (t + [last])[..|t|] == t;
    assert forall p :: 0 <= p < |t| ==> (t + [last])[..p] == t[..p];
  }

  lemma EnteredFirstWrapped(i: nat, w: Wrapping, inner: Future, j: nat)
    requires EnteredFirst(inner.actions, j)
    ensures EnteredFirst(WrapFuture(i, w, inner).actions, j)
  {
    EnteredFirstInside(Entered(i), inner.actions, j);
    EnteredFirstAround([Entered(i)] + inner.actions, Exited(i), j);
    assert EnteredFirst([Entered(i)], j);
    EnteredFirstAround([Entered(i)], Exited(i), j);
    assert [Entered(i)] + [Exited(i)] == [Entered(i), Exited(i)];
    hide EnteredFirst;
  }

  lemma {:induction false} NestedEntersFirst(interceptors: seq<Interceptor>, from: nat, inner: Future, j: nat)
    requires from <= |interceptors| && EnteredFirst(inner.actions, j)
    ensures EnteredFirst(Nested(CollectHandlerWrappers(interceptors)[from..], inner).actions, j)
    decreases |interceptors| - from
  {
    hide EnteredFirst, WrapFuture;
    var ws := CollectHandlerWrappers(interceptors)[from..];
    if from < |interceptors| {
      NestedEntersFirst(interceptors, from + 1, inner, j);
      assert ws[1..] == CollectHandlerWrappers(interceptors)[from + 1..];
      assert ws[0] == CollectHandlerWrappers(interceptors)[from];
      EnteredFirstWrapped(from, interceptors[from].wrapping, Nested(ws[1..], inner), j);
    }
  }

  /** No wrapper is left before it has been entered, whatever the others do. */
  lemma WrappersAreEnteredFirst(m: Incoming, j: nat)
    ensures EnteredFirst(DispatchFuture(m).actions, j)
  {
    var inner := Future([Dispatched, Handled], true, false);
    var ws := CollectHandlerWrappers(m.interceptors);
    assert ws[0..] == ws;
    FirstWrapperIsOutermost(ws, inner);
    NestedEntersFirst(m.interceptors, 0, inner, j);
    hide Nested, ApplyHandlerWrappers, CollectHandlerWrappers;
  }
}
