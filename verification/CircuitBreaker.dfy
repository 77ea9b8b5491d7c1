/**
  The per-actor circuit breaker: a three-state machine that opens on errors within a
  sliding window, refuses messages during a cooldown, and then admits single probes.
*/
module CircuitBreaker {
  import opened Numbers
  import opened Wrappers
  import opened Wire

  datatype CircuitState = Closed | Open | HalfOpen

  datatype Config = Config(errorThreshold: U32, errorWindow: nat, cooldown: nat)

  datatype Breaker = Breaker(
    state: CircuitState,
    errorTimestamps: seq<Instant>,
    openedAt: Option<Instant>,
    probeInFlight: bool)

  datatype Verdict = Admit | Refuse

  const NewBreaker: Breaker := Breaker(Closed, [], None, false)

  /** Drops timestamps from the front while they are older than the window. */
  function Pruned(errors: seq<Instant>, window: nat, now: Instant): seq<Instant> {
    if errors != [] && DurationSince(now, errors[0]) > window then Pruned(errors[1..], window, now) else errors
  }

  function AfterReceive(c: Config, b: Breaker, now: Instant): (Verdict, Breaker) {
    match b.state
    case Closed => (Admit, b)
    case Open =>
      if b.openedAt.Some? && DurationSince(now, b.openedAt.value) >= c.cooldown
      then (Admit, b.(state := HalfOpen, probeInFlight := true))
      else (Refuse, b)
    case HalfOpen =>
      if b.probeInFlight then (Refuse, b) else (Admit, b.(probeInFlight := true))
  }

  function AfterComplete(c: Config, b: Breaker, isError: bool, now: Instant): Breaker {
    var errors := if isError then Pruned(b.errorTimestamps + [now], c.errorWindow, now) else b.errorTimestamps;
    match b.state
    case Closed =>
      if isError && |errors| % U32_RANGE >= c.errorThreshold
      then b.(errorTimestamps := errors, state := Open, openedAt := Some(now))
      else b.(errorTimestamps := errors)
    case HalfOpen =>
      if isError then Breaker(Open, errors, Some(now), false) else Breaker(Closed, [], None, false)
    case Open =>
      b.(errorTimestamps := errors)
  }

  // ----- The interceptor object -----

  class CircuitBreakerInterceptor {
    const config: Config
    var states: map<ActorId, Breaker>

    constructor (config: Config)
      ensures this.config == config && states == map[]
    {
      this.config, states := config, map[];
    }

    /** An actor without recorded state has a new, closed breaker. */
    function BreakerFor(actor: ActorId): Breaker
      reads this
    {
      if actor in states then states[actor] else NewBreaker
    }

    method StateFor(actor: ActorId) returns (s: CircuitState)
      ensures s == BreakerFor(actor).state
    {
      s := if actor in states then states[actor].state else Closed;
    }

    method OnReceive(actor: ActorId, now: Instant) returns (v: Verdict)
      modifies this
      ensures (v, BreakerFor(actor)) == AfterReceive(config, old(BreakerFor(actor)), now)
      ensures forall other :: other != actor ==> BreakerFor(other) == old(BreakerFor(other))
    {
      var entry := if actor in states then states[actor] else NewBreaker;
      v := Refuse;
      match entry.state {
        case Closed =>
          v := Admit;
        case Open =>
          if entry.openedAt.Some? {
            if DurationSince(now, entry.openedAt.value) >= config.cooldown {
              entry := entry.(state := HalfOpen);
              entry := entry.(probeInFlight := true);
              v := Admit;
            }
          }
        case HalfOpen =>
          if !entry.probeInFlight {
            entry := entry.(probeInFlight := true);
            v := Admit;
          }
      }
      states := states[actor := entry];
    }

    method OnComplete(actor: ActorId, isError: bool, now: Instant)
      modifies this
      ensures BreakerFor(actor) == AfterComplete(config, old(BreakerFor(actor)), isError, now)
      ensures forall other :: other != actor ==> BreakerFor(other) == old(BreakerFor(other))
    {
      var entry := if actor in states then states[actor] else NewBreaker;
      var errors := entry.errorTimestamps;
      if isError {
        errors := PruneErrors(errors + [now], config.errorWindow, now);
      }
      match entry.state {
        case Closed =>
          if isError {
            entry := entry.(errorTimestamps := errors);
            if |entry.errorTimestamps| % U32_RANGE >= config.errorThreshold {
              entry := entry.(state := Open);
              entry := entry.(openedAt := Some(now));
            }
          }
        case HalfOpen =>
          entry := entry.(probeInFlight := false);
          if isError {
            entry := entry.(state := Open, openedAt := Some(now), errorTimestamps := errors);
          } else {
            entry := entry.(state := Closed, errorTimestamps := [], openedAt := None);
          }
        case Open =>
          if isError {
            entry := entry.(errorTimestamps := errors);
          }
      }
      states := states[actor := entry];
    }

    static method PruneErrors(errors: seq<Instant>, window: nat, now: Instant) returns (kept: seq<Instant>)
      ensures kept == Pruned(errors, window, now)
    {
      kept := errors;
      while kept != [] && DurationSince(now, kept[0]) > window
        invariant Pruned(kept, window, now) == Pruned(errors, window, now)
        decreases |kept|
      {
        kept := kept[1..];
      }
    }
  }
}

/** What the breaker guarantees over whole runs of receives and completions with a monotone clock. */
module CircuitBreakerRuns {
  import opened Sequences
  import opened Numbers
  import opened Wrappers
  import opened Wire
  import opened CircuitBreaker

  datatype Event = Receive(now: Instant) | Complete(isError: bool, now: Instant)

  predicate MonotoneClock(events: seq<Event>) {
    forall i, j :: 0 <= i < j < |events| ==> events[i].now <= events[j].now
  }

  function Step(c: Config, b: Breaker, e: Event): Breaker {
    match e
    case Receive(now) => AfterReceive(c, b, now).1
    case Complete(isError, now) => AfterComplete(c, b, isError, now)
  }

  function Run(c: Config, b: Breaker, events: seq<Event>): Breaker {
    if events == [] then b else Step(c, Run(c, b, events[..|events| - 1]), events[|events| - 1])
  }

  // ----- The deque is a window over the recorded errors -----

  predicate Sorted(s: seq<Instant>) {
    forall i, j :: 0 <= i < j < |s| ==> s[i] <= s[j]
  }

  /** The times no longer than `window` before `now`. */
  function Within(s: seq<Instant>, window: nat, now: Instant): seq<Instant> {
    if s == [] then [] else (if DurationSince(now, s[0]) > window then [] else [s[0]]) + Within(s[1..], window, now)
  }

  /** The times no longer than `window` before the latest of them. */
  function WindowOfLatest(s: seq<Instant>, window: nat): seq<Instant> {
    if s == [] then [] else Within(s, window, s[|s| - 1])
  }

  /** Every error reported since the last successful probe. */
  function ErrorsSinceReset(c: Config, events: seq<Event>): seq<Instant> {
    if events == [] then []
    else
      var prior, last := events[..|events| - 1], events[|events| - 1];
      if last.Receive? then ErrorsSinceReset(c, prior)
      else if last.isError then ErrorsSinceReset(c, prior) + [last.now]
      else if Run(c, NewBreaker, prior).state == HalfOpen then []
      else ErrorsSinceReset(c, prior)
  }

  lemma {:induction false} AllWithin(s: seq<Instant>, window: nat, now: Instant)
    requires forall i :: 0 <= i < |s| ==> DurationSince(now, s[i]) <= window
    ensures Within(s, window, now) == s
  {
    if s != [] { AllWithin(s[1..], window, now); }
  }

  /** On sorted times, dropping from the front is the same as filtering. */
  lemma {:induction false} PruningIsFiltering(s: seq<Instant>, window: nat, now: Instant)
    requires Sorted(s)
    ensures Pruned(s, window, now) == Within(s, window, now)
  {
    if s != [] {
      if DurationSince(now, s[0]) > window {
        PruningIsFiltering(s[1..], window, now);
      } else {
        AllWithin(s, window, now);
      }
    }
  }

  lemma {:induction false} WithinKeepsOrder(s: seq<Instant>, window: nat, now: Instant, bound: Instant)
    requires Sorted(s) && forall i :: 0 <= i < |s| ==> s[i] <= bound
    ensures Sorted(Within(s, window, now)) && forall t :: t in Within(s, window, now) ==> t in s && t <= bound
  {
    if s != [] {
      WithinKeepsOrder(s[1..], window, now, bound);
      var rest := Within(s[1..], window, now);
      forall i | 0 <= i < |rest| ensures s[0] <= rest[i] {
        assert rest[i] in s[1..];
        var j :| 0 <= j < |s[1..]| && s[1..][j] == rest[i];
        assert s[1..][j] == s[j + 1];
      }
    }
  }

  lemma {:induction false} WithinConcat(s: seq<Instant>, t: seq<Instant>, window: nat, now: Instant)
    ensures Within(s + t, window, now) == Within(s, window, now) + Within(t, window, now)
  {
    if s == [] {
      ConcatNothing(t);
      ConcatNothing(Within(t, window, now));
    } else {
      WithinConcat(s[1..], t, window, now);
      TailOfConcat(s, t);
      var head := if DurationSince(now, s[0]) <= window then [s[0]] else [];
      assert Within(s, window, now) == head + Within(s[1..], window, now);
      assert Within(s + t, window, now) == head + Within((s + t)[1..], window, now);
      hide Within;
      ConcatAssociates(head, Within(s[1..], window, now), Within(t, window, now));
    }
  }

  /** What was already out of the window stays out as time passes. */
  lemma {:induction false} FilterTwice(s: seq<Instant>, window: nat, earlier: Instant, now: Instant)
    requires earlier <= now
    ensures Within(Within(s, window, earlier), window, now) == Within(s, window, now)
  {
    if s != [] {
      FilterTwice(s[1..], window, earlier, now);
      var rest := Within(s[1..], window, earlier);
      assert ([s[0]] + rest)[1..] == rest && [] + rest == rest;
    }
  }

  lemma SortedAppend(s: seq<Instant>, now: Instant)
    requires Sorted(s) && forall t :: t in s ==> t <= now
    ensures Sorted(s + [now])
  {
    assert forall i :: 0 <= i < |s| ==> s[i] in s;
  }

  /** The window of the latest time, before and after `now` is appended. */
  lemma LatestWindow(s: seq<Instant>, window: nat, now: Instant)
    ensures WindowOfLatest(s, window) == Within(s, window, if s == [] then 0 else s[|s| - 1])
    ensures WindowOfLatest(s + [now], window) == Within(s + [now], window, now)
  {
    hide Within;
    EmptyWithin(window, 0);
  }

  lemma EmptyWithin(window: nat, now: Instant)
    ensures Within([], window, now) == []
  {
  }

  lemma RecordingSlidesWindow(recorded: seq<Instant>, window: nat, now: Instant)
    requires Sorted(recorded) && forall i :: 0 <= i < |recorded| ==> recorded[i] <= now
    ensures Pruned(WindowOfLatest(recorded, window) + [now], window, now) == WindowOfLatest(recorded + [now], window)
  {
    var latest := if recorded == [] then 0 else recorded[|recorded| - 1];
    var kept := Within(recorded, window, latest);
    WithinKeepsOrder(recorded, window, latest, now);
    SortedAppend(kept, now);
    LatestWindow(recorded, window, now);
    PruningIsFiltering(kept + [now], window, now);
    FilterTwice(recorded, window, latest, now);
    WithinConcat(kept, [now], window, now);
    WithinConcat(recorded, [now], window, now);
    hide *;
  }

  function LastNow(events: seq<Event>): Instant {
    if events == [] then 0 else events[|events| - 1].now
  }

  /** The errors recorded since the last reset, after one more event at breaker `b`. */
  function RecordedAfter(b: Breaker, recorded: seq<Instant>, e: Event): seq<Instant> {
    if e.Receive? then recorded
    else if e.isError then recorded + [e.now]
    else if b.state == HalfOpen then []
    else recorded
  }

  lemma DequeStep(c: Config, b: Breaker, recorded: seq<Instant>, e: Event)
    requires b.errorTimestamps == WindowOfLatest(recorded, c.errorWindow)
    requires Sorted(recorded) && forall i :: 0 <= i < |recorded| ==> recorded[i] <= e.now
    ensures Step(c, b, e).errorTimestamps == WindowOfLatest(RecordedAfter(b, recorded, e), c.errorWindow)
    ensures Sorted(RecordedAfter(b, recorded, e))
    ensures forall t :: t in RecordedAfter(b, recorded, e) ==> t <= e.now
  {
    RecordingSlidesWindow(recorded, c.errorWindow, e.now);
    hide Within, Pruned;
  }

  /**
    On every reachable state the deque holds exactly the errors since the last successful
    probe that lie within the window of the latest of them.
  */
  lemma {:induction false} DequeIsWindow(c: Config, events: seq<Event>)
    requires MonotoneClock(events)
    ensures Run(c, NewBreaker, events).errorTimestamps == WindowOfLatest(ErrorsSinceReset(c, events), c.errorWindow)
    ensures Sorted(ErrorsSinceReset(c, events))
    ensures forall t :: t in ErrorsSinceReset(c, events) ==> t <= LastNow(events)
  {
    if events != [] {
      var prior, last := events[..|events| - 1], events[|events| - 1];
      DequeIsWindow(c, prior);
      hide WindowOfLatest, Step, Sorted;
      var recorded := ErrorsSinceReset(c, prior);
      assert forall i :: 0 <= i < |recorded| ==> recorded[i] in recorded;
      assert LastNow(prior) <= last.now;
      DequeStep(c, Run(c, NewBreaker, prior), recorded, last);
    }
  }

  // ----- The state machine -----

  ghost predicate Inv(c: Config, b: Breaker) {
    && (b.state.HalfOpen? <==> b.probeInFlight)
    && (b.state.Open? ==> b.openedAt.Some?)
    && (b.state.Closed? ==> |b.errorTimestamps| < if c.errorThreshold == 0 then 1 else c.errorThreshold)
  }

  lemma {:induction false} PrunedIsShorter(errors: seq<Instant>, window: nat, now: Instant)
    ensures |Pruned(errors, window, now)| <= |errors|
  {
    if errors != [] { PrunedIsShorter(errors[1..], window, now); }
  }

  lemma StepKeepsInv(c: Config, b: Breaker, e: Event)
    requires Inv(c, b)
    ensures Inv(c, Step(c, b, e))
  {
    if e.Complete? { PrunedIsShorter(b.errorTimestamps + [e.now], c.errorWindow, e.now); }
  }

  lemma {:induction false} RunKeepsInv(c: Config, b: Breaker, events: seq<Event>)
    requires Inv(c, b)
    ensures Inv(c, Run(c, b, events))
  {
    if events != [] {
      RunKeepsInv(c, b, events[..|events| - 1]);
      StepKeepsInv(c, Run(c, b, events[..|events| - 1]), events[|events| - 1]);
    }
  }

  /**
    A reachable closed breaker opens on an error exactly when the errors since the last
    successful probe that lie within the window, this one included, reach the threshold.
    The 32-bit count that the comparison uses never wraps around.
  */
  lemma OpensExactlyAtThreshold(c: Config, events: seq<Event>, now: Instant)
    requires MonotoneClock(events) && LastNow(events) <= now
    requires Run(c, NewBreaker, events).state.Closed?
    ensures var b := Run(c, NewBreaker, events);
            var b' := AfterComplete(c, b, true, now);
            var recent := WindowOfLatest(ErrorsSinceReset(c, events) + [now], c.errorWindow);
            && b'.errorTimestamps == recent
            && |recent| < U32_RANGE
            && (b'.state.Open? <==> |recent| >= c.errorThreshold)
            && (b'.state.Open? ==> b'.openedAt == Some(now))
            && (!b'.state.Open? ==> b'.state.Closed?)
  {
    var b := Run(c, NewBreaker, events);
    var recorded := ErrorsSinceReset(c, events);
    DequeIsWindow(c, events);
    RunKeepsInv(c, NewBreaker, events);
    assert forall i :: 0 <= i < |recorded| ==> recorded[i] in recorded;
    hide WindowOfLatest, ErrorsSinceReset, Pruned, Run, Inv, AfterComplete;
    RecordingSlidesWindow(recorded, c.errorWindow, now);
    ErrorWhileClosed(c, b, now);
  }

  lemma ErrorWhileClosed(c: Config, b: Breaker, now: Instant)
    requires Inv(c, b) && b.state.Closed?
    ensures var b' := AfterComplete(c, b, true, now);
            var recent := Pruned(b.errorTimestamps + [now], c.errorWindow, now);
            && b'.errorTimestamps == recent
            && |recent| < U32_RANGE
            && (b'.state.Open? <==> |recent| >= c.errorThreshold)
            && (b'.state.Open? ==> b'.openedAt == Some(now))
            && (!b'.state.Open? ==> b'.state.Closed?)
  {
    PrunedIsShorter(b.errorTimestamps + [now], c.errorWindow, now);
  }

  /** A breaker is half-open exactly while a probe is in flight. */
  lemma {:induction false} HalfOpenIffProbing(c: Config, events: seq<Event>)
    ensures Run(c, NewBreaker, events).state.HalfOpen? <==> Run(c, NewBreaker, events).probeInFlight
  {
    RunKeepsInv(c, NewBreaker, events);
  }

  // ----- Cooldown -----

  /** When messages were admitted in the run. */
  function Admissions(c: Config, b: Breaker, events: seq<Event>): seq<Instant> {
    if events == [] then []
    else
      var prior, last := events[..|events| - 1], events[|events| - 1];
      Admissions(c, b, prior)
      + if last.Receive? && AfterReceive(c, Run(c, b, prior), last.now).0.Admit? then [last.now] else []
  }

  lemma {:induction false} OpenUntilAdmission(c: Config, b: Breaker, events: seq<Event>)
    requires b.state.Open? && Admissions(c, b, events) == []
    ensures Run(c, b, events).state.Open? && Run(c, b, events).openedAt == b.openedAt
  {
    if events != [] { OpenUntilAdmission(c, b, events[..|events| - 1]); }
  }

  /** Once open, a breaker admits nothing until the cooldown has elapsed. */
  lemma {:induction false} NothingAdmittedDuringCooldown(c: Config, b: Breaker, events: seq<Event>)
    requires b.state.Open? && b.openedAt.Some? && MonotoneClock(events)
    requires forall i :: 0 <= i < |events| ==> b.openedAt.value <= events[i].now
    ensures forall t :: t in Admissions(c, b, events) ==> b.openedAt.value + c.cooldown <= t <= LastNow(events)
  {
    if events != [] {
      var prior, last := events[..|events| - 1], events[|events| - 1];
      NothingAdmittedDuringCooldown(c, b, prior);
      var admitted := Admissions(c, b, prior);
      assert LastNow(prior) <= LastNow(events);
      if admitted == [] {
        OpenUntilAdmission(c, b, prior);
      } else {
        assert admitted[0] in admitted;
      }
    }
  }

  predicate AllFail(events: seq<Event>) {
    forall i :: 0 <= i < |events| && events[i].Complete? ==> events[i].isError
  }

  /** Admission times are a cooldown apart, starting a cooldown after `from`. */
  ghost predicate Spaced(times: seq<Instant>, from: Instant, cooldown: nat) {
    && (times != [] ==> from + cooldown <= times[0])
    && forall i :: 0 < i < |times| ==> times[i - 1] + cooldown <= times[i]
  }

  /** A breaker that has only seen failing probes since it opened at `from`. */
  ghost predicate Failing(b: Breaker, admitted: seq<Instant>, from: Instant, cooldown: nat, now: Instant) {
    var latest := if admitted == [] then from else admitted[|admitted| - 1];
    && Spaced(admitted, from, cooldown)
    && (b.state.Open? || b.state.HalfOpen?) && (b.state.HalfOpen? <==> b.probeInFlight)
    && (b.state.Open? ==> b.openedAt.Some?)
    && (b.state.Open? ==> latest <= b.openedAt.value)
    && latest <= now
  }

  lemma FailingStep(c: Config, b: Breaker, admitted: seq<Instant>, from: Instant, now: Instant, e: Event)
    requires Failing(b, admitted, from, c.cooldown, now) && now <= e.now && (e.Complete? ==> e.isError)
    ensures Failing(Step(c, b, e),
                    admitted + if e.Receive? && AfterReceive(c, b, e.now).0.Admit? then [e.now] else [],
                    from, c.cooldown, e.now)
  {
    assert admitted + [] == admitted;
  }

  lemma {:induction false} ProbesAreSpaced(c: Config, b: Breaker, events: seq<Event>)
    requires b.state.Open? && b.openedAt.Some? && !b.probeInFlight && MonotoneClock(events) && AllFail(events)
    requires forall i :: 0 <= i < |events| ==> b.openedAt.value <= events[i].now
    ensures Failing(Run(c, b, events), Admissions(c, b, events), b.openedAt.value, c.cooldown,
                    if events == [] then b.openedAt.value else LastNow(events))
  {
    if events != [] {
      var prior, last := events[..|events| - 1], events[|events| - 1];
      ProbesAreSpaced(c, b, prior);
      FailingStep(c, Run(c, b, prior), Admissions(c, b, prior), b.openedAt.value,
                  if prior == [] then b.openedAt.value else LastNow(prior), last);
      hide Failing, Step, AfterReceive;
    }
  }

  /**
    While every probe fails, probes are at least a cooldown apart: N of them span at least
    (N - 1) cooldowns, and the first comes a cooldown after the breaker opened.
  */
  lemma {:induction false} FailingProbesAreRateLimited(c: Config, b: Breaker, events: seq<Event>, n: nat)
    requires b.state.Open? && b.openedAt.Some? && !b.probeInFlight && MonotoneClock(events) && AllFail(events)
    requires forall i :: 0 <= i < |events| ==> b.openedAt.value <= events[i].now
    requires n < |Admissions(c, b, events)|
    ensures var admitted := Admissions(c, b, events);
            && admitted[0] + n * c.cooldown <= admitted[n]
            && b.openedAt.value + (n + 1) * c.cooldown <= admitted[n]
  {
    ProbesAreSpaced(c, b, events);
    if n > 0 { FailingProbesAreRateLimited(c, b, events, n - 1); }
    hide Admissions, AllFail;
    assert (n + 1) * c.cooldown == n * c.cooldown + c.cooldown;
    assert n > 0 ==> n * c.cooldown == (n - 1) * c.cooldown + c.cooldown;
  }

  // ----- What a reachable breaker answers -----

  lemma {:induction false} RunOn(c: Config, b: Breaker, first: seq<Event>, more: seq<Event>)
    ensures Run(c, b, first + more) == Run(c, Run(c, b, first), more)
  {
    if more == [] {
      ConcatNothing(first);
    } else {
      InitOfConcat(first, more);
      RunOn(c, b, first, more[..|more| - 1]);
    }
  }

  lemma RunOneMore(c: Config, b: Breaker, events: seq<Event>, e: Event)
    ensures Run(c, b, events + [e]) == Step(c, Run(c, b, events), e)
  {
    InitOfAppend(events, e);
  }

  /** When the breaker last went from another state to open. */
  function LastOpening(c: Config, events: seq<Event>): Instant {
    if events == [] then 0
    else
      var prior, last := events[..|events| - 1], events[|events| - 1];
      if Run(c, NewBreaker, events).state.Open? && !Run(c, NewBreaker, prior).state.Open? then last.now
      else LastOpening(c, prior)
  }

  lemma {:induction false} OpenedAtLastOpening(c: Config, events: seq<Event>)
    requires MonotoneClock(events)
    ensures LastOpening(c, events) <= LastNow(events)
    ensures Run(c, NewBreaker, events).state.Open? ==>
              Run(c, NewBreaker, events).openedAt == Some(LastOpening(c, events))
  {
    if events != [] {
      OpenedAtLastOpening(c, events[..|events| - 1]);
      hide Pruned, DurationSince;
    }
  }

  /**
    What a reachable breaker answers to a message. Closed, it admits it and does not change.
    Open, it admits it as a probe if a cooldown has passed since it opened, and otherwise
    refuses it. Half-open, it refuses it. A refusal changes nothing.
  */
  lemma ReceiveOnReachable(c: Config, events: seq<Event>, now: Instant)
    requires MonotoneClock(events) && LastNow(events) <= now
    ensures var b := Run(c, NewBreaker, events);
            var (v, b') := AfterReceive(c, b, now);
            match b.state
            case Closed => v == Admit && b' == b
            case HalfOpen => v == Refuse && b' == b
            case Open =>
              if LastOpening(c, events) + c.cooldown <= now
              then v == Admit && b' == Breaker(HalfOpen, b.errorTimestamps, b.openedAt, true)
              else v == Refuse && b' == b
  {
    OpenedAtLastOpening(c, events);
    RunKeepsInv(c, NewBreaker, events);
    hide Run, LastOpening;
  }

  /**
    A breaker that is not closed, in any state whatever, lets at most one message through at a
    time: half-open, it admits one exactly when no probe is in flight; and once it has
    admitted one it refuses every other until something completes.
  */
  lemma OneProbeAtATime(c: Config, b: Breaker, now: Instant, later: Instant)
    requires !b.state.Closed?
    ensures b.state.HalfOpen? ==> (AfterReceive(c, b, now).0.Admit? <==> !b.probeInFlight)
    ensures AfterReceive(c, b, now).0.Admit? ==>
              var probing := AfterReceive(c, b, now).1;
              && probing == b.(state := HalfOpen, probeInFlight := true)
              && AfterReceive(c, probing, later) == (Refuse, probing)
  {
  }

  /**
    What the end of a probe does to a half-open breaker that is reached in a run. A success
    makes it as new: whatever happens next, it goes through the states and answers of a
    breaker that has never seen anything. A failure opens it again, from that instant on.
  */
  lemma ProbeDecides(c: Config, events: seq<Event>, now: Instant, more: seq<Event>)
    requires Run(c, NewBreaker, events).state.HalfOpen?
    ensures Run(c, NewBreaker, events + [Complete(false, now)]) == Breaker(Closed, [], None, false)
    ensures Run(c, NewBreaker, events + [Complete(false, now)] + more) == Run(c, NewBreaker, more)
    ensures var failed := Run(c, NewBreaker, events + [Complete(true, now)]);
            failed.state == Open && failed.openedAt == Some(now) && !failed.probeInFlight
  {
    RunOneMore(c, NewBreaker, events, Complete(false, now));
    RunOneMore(c, NewBreaker, events, Complete(true, now));
    RunOn(c, NewBreaker, events + [Complete(false, now)], more);
    hide Run, Pruned;
  }

  function ErrorCount(events: seq<Event>): nat {
    if events == [] then 0
    else
      var last := events[|events| - 1];
      ErrorCount(events[..|events| - 1]) + if last.Complete? && last.isError then 1 else 0
  }

  function ReceivedAt(events: seq<Event>): seq<Instant> {
    if events == [] then []
    else
      var last := events[|events| - 1];
      ReceivedAt(events[..|events| - 1]) + if last.Receive? then [last.now] else []
  }

  /**
    From a new breaker, and so after any successful probe: as long as fewer errors have been
    completed than the threshold says, it stays closed and admits every message, whatever
    the clock.
  */
  lemma {:induction false} AdmitsBelowThreshold(c: Config, events: seq<Event>)
    requires ErrorCount(events) < if c.errorThreshold == 0 then 1 else c.errorThreshold
    ensures Run(c, NewBreaker, events).state.Closed?
    ensures |Run(c, NewBreaker, events).errorTimestamps| <= ErrorCount(events)
    ensures Admissions(c, NewBreaker, events) == ReceivedAt(events)
  {
    if events != [] {
      var prior, last := events[..|events| - 1], events[|events| - 1];
      AdmitsBelowThreshold(c, prior);
      var b := Run(c, NewBreaker, prior);
      if last.Complete? { PrunedIsShorter(b.errorTimestamps + [last.now], c.errorWindow, last.now); }
      hide Pruned;
    }
  }

  /** One error opens it, a probe after the cooldown succeeds, and the next message is admitted. */
  lemma BreakerRecovers()
    ensures var events := [Complete(true, 0)] + [Receive(5)] + [Complete(false, 6)] + [Receive(7)];
            Admissions(Config(1, 10, 5), NewBreaker, events) == [5, 7]
  {
    var c := Config(1, 10, 5);
    var e1 := [Complete(true, 0)];
    var e2 := e1 + [Receive(5)];
    var e3 := e2 + [Complete(false, 6)];
    ConcatNothing(e1);
    RunOneMore(c, NewBreaker, [], Complete(true, 0));
    RunOneMore(c, NewBreaker, e1, Receive(5));
    RunOneMore(c, NewBreaker, e2, Complete(false, 6));
    assert Pruned([] + [0], 10, 0) == [0];
    AdmissionsGrow(c, [], Complete(true, 0));
    AdmissionsGrow(c, e1, Receive(5));
    AdmissionsGrow(c, e2, Complete(false, 6));
    AdmissionsGrow(c, e3, Receive(7));
    assert Run(c, NewBreaker, []) == NewBreaker && Admissions(c, NewBreaker, []) == [];
    hide Run, Admissions, Pruned;
    assert [] + [] + [5] + [] + [7] == [5, 7];
  }

  lemma AdmissionsGrow(c: Config, events: seq<Event>, e: Event)
    ensures Admissions(c, NewBreaker, events + [e])
         == Admissions(c, NewBreaker, events)
            + if e.Receive? && AfterReceive(c, Run(c, NewBreaker, events), e.now).0.Admit? then [e.now] else []
  {
    InitOfAppend(events, e);
    hide Run, AfterReceive;
  }
}
